# Verified models of five parts of ADM

This project models, in Dafny, five self-contained pieces of the repository and proves what they
promise: the jsmn JSON tokenizer, the columnar file layout (partition arithmetic and the
`adm-partition-ssb` tool), the io_uring request pool, the HTAP scheduler, and the trace writer.
`dafny verify dfyconfig.toml` checks everything. Nothing of the original program is executed.

## What is modelled

- **jsmn** (`Jsmn*.dfy`), in the configuration the headers compile: wide tokens, growing token array,
  no strict mode, no parent links. `JsmnParser.Parser` is the parser as written: fields and a token
  array updated in place, doubled when full, with open containers found by scanning backwards. Its
  contract is `JsmnMachine.Run`, a machine that keeps an explicit bracket stack (a zipper of
  `JsmnTree`) and never looks at an array; `Flat` maps the one to the other. Everything else is proved
  about that machine, on every text: `JsmnStructure` (stack, ranges, sizes, verdict), `JsmnResume`
  (calling again on more text), `JsmnRoundTrip` (printing and tokenizing), `JsmnVerdict` (what the result codes say about the text), `JsmnPool` (what the caller's
  number of tokens does to the array). `JsmnUse` composes the theorems with the in-place code. A text is a string whose last character is the NUL that the C code
  relies on; an allocation oracle decides which array sizes can be had.
- **Partitioning** (`Partition.dfy`): the sizes and offsets of `loadToCpus`, `loadToGpus` and
  `loadDistributed`, the short-read loop of pinned files, and whole loads over servers that each have
  their own number of devices. Page and block size enter as one alignment.
- **Column files** (`ColumnLayout.dfy`, `ColumnCompression.dfy`): cutting into blocks, chunked
  compression, padded files with metadata, written over whatever the compressed files held before, and
  what a reader recovers. LZ4 is a parameter, described by
  its round trip (`Lossless`). A failed CHECK is the result `Fatal`.
- **io_uring** (`IoUring.dfy`, `IoUringPool.dfy`): the class with its polling loops, and the protocol as
  functions of a state. The kernel is the environment: each visit says how many entries it took and what
  completed before, during and after reaping. Loops run for as many visits as are given, so a loop that
  would not end yet is a state in which the visits have run out. A failed CHECK or a failed completion
  sets `aborted`.
- **HTAP** (`HtapModes.dfy`, `HtapFreshness.dfy`, `HtapSequence.dfy`): mode migration with its static
  flag and counter, the elastic set and the terminated workers, freshness totals and the decision over the reals, and adaptive runs recorded as traces. Clock
  and ratios are arguments.
- **Trace writer** (`TraceStream.dfy`, `TraceGenerator.dfy`): interning and flushing, against a reader
  that only sees packets.

## Where the code and its promises differ

- Cores are meant to be off in S3_NI only, but they never come back. `scale_down` sets the terminate flag
  of their workers, which then leave their loop (core/oltp/lib/execution/worker.cpp:77), while `scale_back`
  resumes paused workers only and forgets the elastic set. After any run cores are off exactly when it has
  been in S3_NI and the threshold does not truncate to 0 (`OffExactly`). Throughout a run they are off as
  the mode says exactly when S3_NI is never left, nor entered with such a threshold (`OffOnlyInMode`);
  S2 to S3_NI and back breaks it (`CoresStayOff`). The elastic set itself does follow the mode.
- `OLTP::migrate_worker` and `scale_down` take a `worker_id_t`, which is 8 bits
  (core/oltp/include/oltp/common/common.hpp:52), while thresholds are 32 bits. The static counter of
  migrations reaches half the threshold exactly when the threshold is below 256 (`HalfAwayExactly`).
- `scale_down` gives up as many cores as the threshold says exactly for even thresholds below 256: an odd
  number is never met by its pair-wise loop, which then runs to its end (`GivenUpExactly`, `VictimsSize`).
  Asked for 3 it gives up 8, asked for 258 it gives up 2 (`WrongNumbers`). As many different cores are
  terminated only if the pairs also fit between siblings (`TerminatedExactly`). On the other side
  `getElasticResources` asserts that it takes exactly the threshold, which holds exactly for even
  thresholds its nodes can meet (`ElasticResources`); so builds with assertions stop at odd thresholds
  (apps/benchmarks/htap/queries/olap-sequence.cpp:290), and others go on with the wrong number.
- The counter is all that moves in S1: a worker that sees its new affinity asserts that this is not
  implemented (core/oltp/lib/execution/worker.cpp:78-80).
- Flag, counter and terminated workers outlive a run. What a later run finds is in step with its isolated
  start exactly when the earlier one ended neither colocated nor with a filled elastic set, and is as at
  the very start exactly when that one never terminated a core either (`NextRunInStep`).
- `loadEverywhere` scales by the type width without dividing the file size first: it tiles the file, and
  stays inside it, exactly for types narrower than 8 bytes or empty files (`EverywhereTiles`).
- Resuming a parse is the same as parsing once except when the first call stopped inside a primitive; then
  it never is (`ResumeExactly`, `CutExample`). INVAL and PART of the first call make no difference.
- Columns are cut at the same rows exactly for widths that are multiples of 4, at every alignment
  (`AlignedExactly`). For any other width, twice the alignment in rows on two servers shows it
  (`ColumnMisalignment`).
- `jsmn_parse` doubles its copy of `num_tokens` and never reports it. A second call given any number at all
  writes past the array, or loses tokens of the first, exactly as `ParseAgain` says; nothing differs before
  its first allocation, and that one decides. With the number of the first call the array is left exactly
  when there are twice as many tokens and one is added (`SameNumberAgain`); "1 1 1" read in two calls with
  room for one token does it (`ShortestOverrun`, and `OverrunInput` for every capacity), and "1 1 1 1" with
  room for two loses a token (`ShortestLoss`).
- Compressed output files are opened without truncation. Blocks read back whatever was there; they tile
  the file exactly when it was not longer before than they take (`OverReads`, `PartitionCompressed`). With
  more directories than blocks the last file takes nothing, so anything left there stays (`NothingForLast`).
- A string that is cut short is PART, which asks for more, unless it is cut by a NUL right behind a
  backslash that opens an escape: the NUL is then taken for the escaped character, and the result is INVAL (`NulCut`).
- The warm-up statement of a run is the first query's plan for S1_COLOCATED, executed in S2_ISOLATED
  before any snapshot or ETL (`Execute`); the plan and freshness claims are about the queries after it.
- `_track_instant` needs a flow where the other calls take none as empty, and `Group.instant` passes none
  by default: such a call raises after its packet was added, and does not flush (`TrackInstant`).

## Model

| member | source | states |
|---|---|---|
| `JsmnParser.Parser.constructor` | external/jsmn/jsmn.c:425-429 | A fresh parser stands at position 0 with no token and nothing open. |
| `JsmnParser.Parser.AllocToken` | external/jsmn/jsmn.c:30-84 | For every number of tokens: the slot is handed out, the array doubled and the number counted by the rules of `Take`, or the allocation fails and nothing changes, or the slot lies past the array; tokens in use are kept if the number counts them, otherwise one is blank. |
| `JsmnPool.RoomExactly` | external/jsmn/jsmn.c:33-73 | Exactly which numbers of tokens let k more be handed out without going past the array. |
| `JsmnPool.HonestTakes` | external/jsmn/jsmn.c:33-63 | From a number that counts the tokens and fits the array, any number of slots can be handed out, and the final number and length are exactly given. |
| `JsmnPool.DoubledLaws` | external/jsmn/jsmn.c:38-39 | Doubling covers the tokens and ends at the first number or below twice the tokens. |
| `JsmnParser.Parser.FillToken` | external/jsmn/jsmn.c:89-100 | A leaf token is appended, or nothing changes, or there is no slot. |
| `JsmnParser.Parser.ParsePrimitive` | external/jsmn/jsmn.c:105-166 | INVAL exactly on an unprintable byte before the delimiter; otherwise one token over the run; on failure position and array are restored. |
| `JsmnParser.Parser.ParseString` | external/jsmn/jsmn.c:171-254 | INVAL exactly on a bad escape, PART exactly when the text ends first, otherwise one token over the body; all reads stay before the NUL. |
| `JsmnParser.Parser.ParseEscape` | external/jsmn/jsmn.c:211-250 | Which escapes are accepted and where they end, including the four hexadecimal digits. |
| `JsmnParser.Parser.ScanBack` | external/jsmn/jsmn.c:325-342 | The scan finds the last open token at or before its start, or none. |
| `JsmnParser.Parser.LastOpen` | external/jsmn/jsmn.c:355-361 | On the array of any zipper the scan finds the innermost open container, the top of the bracket stack. |
| `JsmnParser.Parser.CountChild` | external/jsmn/jsmn.c:290-298 | Counting a child is one increment in the innermost container. |
| `JsmnParser.Parser.OpenBracket` | external/jsmn/jsmn.c:275-299 | An opening bracket pushes a container; its token is written and counted in the one around it. |
| `JsmnParser.Parser.CloseBracket` | external/jsmn/jsmn.c:300-363 | A closing bracket pops exactly a matching innermost container; otherwise it is refused and nothing changes. |
| `JsmnParser.Parser.ParseLexeme` | external/jsmn/jsmn.c:273-405 | One round of the loop shifts exactly the lexeme at the position, or reports why not and restores the state. |
| `JsmnParser.Parser.Parse` | external/jsmn/jsmn.c:262-419 | Whatever the array and the number of tokens given: slots are handed out by the rules of the pool, the array stays intact exactly if the number counts the tokens in use or none is added, and then result, position and tokens are those of the bracket-stack machine; it goes past the array only if that machine's tokens do not fit the pool; without an array it lexes and counts; a failed allocation leaves a state of the same run. |
| `JsmnTree.BumpSuper` | external/jsmn/jsmn.c:290-291 | One increment at `toksuper` turns the array of a zipper into that with one more child in progress. |
| `JsmnTree.FlatAddChild` | external/jsmn/jsmn.c:364-371 | A finished child extends the array by its pre-order after that increment. |
| `JsmnTree.FlatClose` | external/jsmn/jsmn.c:338-341 | Closing a container changes one end field and nothing else in the array. |
| `JsmnTree.SuperIsLastOpen` | external/jsmn/jsmn.c:355-361 | `toksuper` is the last token with end -1; all later ones are closed. |
| `JsmnStructure.OpenTokensAreFrames` | external/jsmn/jsmn.c:325-361 | The tokens with end -1 are exactly the bracket stack, bottom to top. |
| `JsmnStructure.RunVerdict` | external/jsmn/jsmn.c:269-413 | On every text the result is decided by lexing and textbook bracket matching: success exactly when the text lexes and the stack empties, INVAL at a mismatch or bad lexeme, PART otherwise. |
| `JsmnStructure.RunFromAfter` | external/jsmn/jsmn.c:269-406 | A run passes through every loop-head state; positions stay within the text. |
| `JsmnStructure.RunIsAfter` | external/jsmn/jsmn.c:269-406 | A run ends in the last loop-head state. |
| `JsmnStructure.LoopHead` | external/jsmn/jsmn.c:275-363 | At every loop head: the open tokens are the stack of the lexemes read, `toksuper` is its top, starts strictly increase, ranges are nested or disjoint. |
| `JsmnStructure.FitsText` | external/jsmn/include/jsmn.h:152-156 | Token count, starts and ends never pass the text length, so the 32-bit fields do not wrap for texts below 2 GiB. |
| `JsmnStructure.TwoPasses` | external/jsmn/jsmn.c:139-142 | From any state: a filling parse that succeeds adds as many tokens as the counting parse counts. |
| `JsmnStructure.TwoPassAgreement` | external/jsmn/jsmn.c:277-279 | From a fresh parser the filling parse succeeds exactly when counting does and brackets balance, and then both give the number of tokens. |
| `JsmnStructure.ForestSizes` | external/jsmn/jsmn.c:290-298 | In the array of any placed forest each size is the number of tokens directly inside, and the roots are those inside nothing. |
| `JsmnStructure.SizeAccounting` | external/jsmn/jsmn.c:364-413 | After every successful parse the array is the pre-order of a forest, sizes count tokens by innermost container, and sizes plus roots equal `toknext`. |
| `JsmnResume.LongerString` | external/jsmn/jsmn.c:180-253 | A string that is not cut reads the same in a longer text. |
| `JsmnResume.LongerPrimitive` | external/jsmn/jsmn.c:112-131 | A primitive reads the same in a longer text unless it ran up to the cut and goes on behind it. |
| `JsmnResume.Resume` | external/jsmn/jsmn.c:269-413 | From any state, going on after a first call is the same as one call, unless a primitive was cut. |
| `JsmnResume.RunKeeps` | external/jsmn/jsmn.c:338-341 | No later step moves the end of a closed token. |
| `JsmnResume.ResumeExactly` | external/jsmn/jsmn.c:262-419 | Two calls leave the tokens of one exactly when the first did not stop inside a primitive; then position, open containers and status agree too. |
| `JsmnResume.CutExample` | external/jsmn/jsmn.c:112-131 | Every two-letter primitive read one letter at a time is such a cut. |
| `JsmnRoundTrip.RunValue` | external/jsmn/jsmn.c:262-419 | Inside any text and any open containers, tokenizing a printed value adds exactly its node and stops after it. |
| `JsmnRoundTrip.StringText` | external/jsmn/jsmn.c:180-251 | Every well-escaped body is read up to its closing quote. |
| `JsmnRoundTrip.PrimitiveText` | external/jsmn/jsmn.c:112-138 | Every delimiter-free primitive is read up to what follows it. |
| `JsmnRoundTrip.RebuildsTree` | external/jsmn/jsmn.c:262-419 | After every successful parse, of any text, reading types and sizes front to back rebuilds the parsed tree. |
| `JsmnRoundTrip.RoundTrip` | external/jsmn/jsmn.c:262-419 | Every well-formed value printed with any blanks, independently at every place that allows them and around the whole, whatever stands behind it: the parse succeeds with one pre-order token per node over its source range, and the tokens read back as the value. |
| `JsmnVerdict.RfcRoundTrip` | external/jsmn/jsmn.c:262-419 | Every value of RFC 8259, its characters spelled out, in any layout the standard allows, is parsed and read back. |
| `JsmnVerdict.RfcWellFormed` | external/jsmn/jsmn.c:112-138 | The standard's literals, numbers and strings are all accepted. |
| `JsmnVerdict.ShortEscape` | external/jsmn/jsmn.c:214-217 | The short escapes accepted are exactly the eight of the standard. |
| `JsmnVerdict.HexDigit` | external/jsmn/jsmn.c:222-226 | The hexadecimal digits accepted are exactly those of the standard. |
| `JsmnVerdict.BehindDigit` | external/jsmn/jsmn.c:112-131 | Behind a digit: which characters end the primitive, which are refused, and which go on with it. |
| `JsmnVerdict.CutIsPartial` | external/jsmn/jsmn.c:253-253 | A string, array or object in any layout, cut anywhere strictly inside, is PART; a string also when only counting. |
| `JsmnVerdict.ValueCut` | external/jsmn/jsmn.c:407-413 | The same for a value anywhere in a text, and for primitives inside a container. |
| `JsmnVerdict.NulEnds` | external/jsmn/jsmn.c:269-269 | A NUL inside the length ends the text there, for filling and counting alike. |
| `JsmnVerdict.NulCut` | external/jsmn/jsmn.c:211-250 | A string cut by a NUL is PART exactly if the cut is not right behind a backslash that opens an escape, and INVAL there. |
| `JsmnVerdict.BadPrimitive` | external/jsmn/jsmn.c:122-131 | Behind a literal or number, a character outside printable ASCII that is no white space and no NUL is INVAL, with the position before the primitive. |
| `JsmnVerdict.BadEscape` | external/jsmn/jsmn.c:239-248 | Every other escape is INVAL, with the position before the string. |
| `JsmnVerdict.BadHex` | external/jsmn/jsmn.c:218-236 | Fewer than four hexadecimal digits before another character, NUL aside, are INVAL. |
| `JsmnVerdict.WrongClose` | external/jsmn/jsmn.c:325-352 | A closing bracket that does not match, or with nothing open, is INVAL. |
| `JsmnVerdict.MisClosed` | external/jsmn/jsmn.c:325-352 | An array or object in any layout, anywhere, closed by the other bracket is INVAL at that bracket. |
| `JsmnUse.Tokenize` | external/jsmn/jsmn.c:30-84 | Every initial capacity gives the tokens and result of an unbounded array; the capacity it ends at is exactly given, and is the initial one or below twice the tokens. |
| `JsmnUse.TokenizePrinted` | external/jsmn/jsmn.c:262-419 | The in-place parser returns the node count of a printed value and its tokens read back as the value. |
| `JsmnUse.TokenizeCut` | external/jsmn/jsmn.c:253-253 | The in-place parser, its tokens doubled when short, returns PART on a string, array or object cut strictly inside; on a string also when only counting. |
| `JsmnUse.CountThenFill` | external/jsmn/jsmn.c:139-142 | Counting and then filling with the in-place parser agree. |
| `JsmnUse.ParseInTwo` | external/jsmn/jsmn.c:262-413 | Two in-place calls, the second with any number from the tokens in use to the array's length, give the tokens of one exactly unless the cut was inside a primitive, and the second returns exactly the tokens it added. |
| `JsmnUse.ParseAgain` | external/jsmn/jsmn.c:33-73 | Two in-place calls, the second with any number at all, for every text, cut and capacity: exactly when it writes past the array, and otherwise exactly when the tokens are those of an undamaged array. |
| `JsmnUse.SameNumberAgain` | external/jsmn/jsmn.c:262-263 | With the first call's number: past the array exactly when there are twice as many tokens and one is added; short of that, tokens are lost exactly when the array has grown and one is added. |
| `JsmnUse.OverrunInput` | external/jsmn/jsmn.c:262-263 | For every capacity, a text and a cut at which the second call writes past the array. |
| `JsmnUse.ShortestOverrun` | external/jsmn/jsmn.c:33-73 | The in-place parser on "1 1 1" in two calls with room for one token. |
| `JsmnUse.ShortestLoss` | external/jsmn/jsmn.c:57-63 | The in-place parser on "1 1 1 1" in two calls with room for two tokens: the third is lost. |
| `Partition.PartLaws` | core/storage/lib/storage-manager.cpp:177-180 | Parts are enough for the file, multiples of the alignment, and at most one alignment per device and one more too many. |
| `Partition.PartIsLeast` | core/storage/lib/storage-manager.cpp:177-180 | The part size is the least multiple of the alignment with which all devices together hold everything. |
| `Partition.SharesEven` | core/storage/lib/storage-manager.cpp:182-194 | All parts but the last have that size, the last no more, and every device has one until the file runs out. |
| `Partition.NoOverflow` | core/storage/lib/storage-manager.cpp:167-190 | The sums and products of one split stay below 2^64 when the file size plus that excess in bytes does. |
| `Partition.OffsetsFit` | core/storage/lib/storage-manager.cpp:191 | So does the sum of a device's offset and its server's. |
| `Partition.LoadToDevices` | core/storage/lib/storage-manager.cpp:159-195 | One server's parts tile exactly the whole units it was given, all but the last of the least aligned size that is enough. |
| `Partition.LoadDistributed` | core/storage/lib/storage-manager.cpp:84-110 | A server's parts tile its stretch of the file at aligned offsets, a server past the end gets none, and stretches and parts have the least aligned sizes that are enough. |
| `Partition.SplitTiles` | core/storage/lib/storage-manager.cpp:182-194 | The parts are non-empty, in order, without gap or overlap. |
| `Partition.TilesMeans` | core/storage/lib/storage-manager.cpp:185-193 | What a tiling gives: inside, ordered, disjoint, every byte covered. |
| `Partition.ServerTiles` | core/storage/lib/storage-manager.cpp:99-109 | Each server's parts tile its stretch of the file at aligned offsets; servers past the end get none. |
| `Partition.NestedTiling` | core/storage/lib/storage-manager.cpp:84-110 | Over all servers, each with its own number of devices, the parts tile the file at aligned offsets, and cover it exactly when the type width divides it. |
| `Partition.ColumnAlignment` | core/storage/lib/storage-manager.cpp:87-109 | Columns of any widths that are multiples of 4 are cut at the same rows on every server and device. |
| `Partition.AlignedExactly` | core/storage/lib/storage-manager.cpp:87-109 | At every alignment, all parts of a column are common row ranges times its width if and only if the width is a multiple of 4. |
| `Partition.ColumnMisalignment` | core/storage/lib/storage-manager.cpp:87-91 | For every other width and every alignment, the file on which the second of two servers starts elsewhere than at the common row. |
| `Partition.EverywhereTiles` | core/storage/lib/storage-manager.cpp:204-246 | `loadEverywhere` tiles the file, and stays inside it, exactly for types narrower than 8 bytes or an empty file; its parts are even and of the least size. |
| `Partition.ReadAll` | core/storage/lib/mmap-file.cpp:127-139 | For every pattern of short reads the buffer ends up holding the range; positive reads inside the file always complete, past its end never; a failure or early end is reported only when the system gave one. |
| `Partition.ClusterHoldsFile` | core/storage/lib/mmap-file.cpp:84-85 | No part passes the end of the file, and the parts in order are the file up to its last whole unit. |
| `Partition.LoadCluster` | core/storage/lib/mmap-file.cpp:122-141 | Every server computing its parts and reading each with the read loop: the buffers one after the other hold the file, for every pattern of short reads, and positive reads always complete. |
| `ColumnLayout.SplitFileIntoBlocks` | apps/standalones/adm/adm-partition-ssb/main.cpp:81-118 | Blocks concatenate to the file, all full but a non-empty last; it fails exactly on a file that is not whole 4-byte values, never on the size check. |
| `ColumnLayout.WritePadding` | apps/standalones/adm/adm-partition-ssb/main.cpp:172-178 | Padding is written byte by byte from the position on and fills to the alignment. |
| `ColumnLayout.WriteUncompressedFile` | apps/standalones/adm/adm-partition-ssb/main.cpp:142-185 | One output file holds its blocks padded, with sizes, offsets and value counts; it fails exactly on a block of partial values. |
| `ColumnLayout.WriteUncompressedChunksToFiles` | apps/standalones/adm/adm-partition-ssb/main.cpp:128-195 | File i holds the i-th slice of the blocks. |
| `ColumnLayout.PackReads` | apps/standalones/adm/adm-partition-ssb/main.cpp:158-181 | Offsets are multiples of 4096, padded blocks tile the file, and slicing by the metadata gives the blocks back. |
| `ColumnLayout.OverReads` | apps/standalones/adm/adm-partition-ssb/main.cpp:309-310 | Written over any older file, blocks are still located and read back; they tile the file exactly if the older one was not longer. |
| `ColumnLayout.DealtAll` | apps/standalones/adm/adm-partition-ssb/main.cpp:132-161 | For every number of files each block is in exactly one slice, in order. |
| `ColumnLayout.DealtEvenly` | apps/standalones/adm/adm-partition-ssb/main.cpp:132-134 | No file gets more blocks than would be enough for each, and one that another follows gets enough. |
| `ColumnLayout.FilesRead` | apps/standalones/adm/adm-partition-ssb/main.cpp:136-195 | The blocks and counts of all files in file order are those written. |
| `ColumnLayout.PartitionUncompressed` | apps/standalones/adm/adm-partition-ssb/main.cpp:516-518 | End to end: success exactly on whole values, blocks in file order are the input cut at 2 MiB and spread evenly, each at a multiple of 4096 with its own value count, counts summing to the length over 4. |
| `ColumnLayout.ChunksLaws` | apps/standalones/adm/adm-partition-ssb/main.cpp:228-236 | Chunks concatenate to the block, all full but a non-empty last, and their number is the rounded-up quotient. |
| `ColumnCompression.CompressBlock` | apps/standalones/adm/adm-partition-ssb/main.cpp:226-255 | A block's chunks are compressed in order; the count check never fails. |
| `ColumnCompression.CompressBlocks` | apps/standalones/adm/adm-partition-ssb/main.cpp:262-283 | Every block is compressed, in order. |
| `ColumnCompression.DecompressBlock` | apps/standalones/adm/adm-partition-ssb/main.cpp:40-63 | Reads stay in the input and write windows in the output; success exactly when every chunk decodes, and then the output holds them in order. |
| `ColumnCompression.ChunkInverse` | apps/standalones/adm/adm-partition-ssb/main.cpp:226-255 | Decompressing the concatenated chunks of a block gives the block; the writer's chunk checks cannot fail on it. |
| `ColumnCompression.CompressThenDecompress` | apps/standalones/adm/adm-partition-ssb/main.cpp:366-386 | Running both loops: it succeeds on every block of whole values, and the output buffer begins with the block. |
| `ColumnCompression.WriteChunks` | apps/standalones/adm/adm-partition-ssb/main.cpp:340-362 | A block's chunks are written back to back with their sizes; it fails exactly on no chunk or an empty one. |
| `ColumnCompression.WriteCompressedFile` | apps/standalones/adm/adm-partition-ssb/main.cpp:309-412 | One output file holds its compressed blocks padded, over what it held before, with all metadata. |
| `ColumnCompression.WriteCompressedBlocksToFiles` | apps/standalones/adm/adm-partition-ssb/main.cpp:295-425 | File i holds the i-th slice of the compressed blocks. |
| `ColumnCompression.FilesDecode` | apps/standalones/adm/adm-partition-ssb/main.cpp:305-425 | Over any older files, decoding all blocks of all files in file order gives the original blocks. |
| `ColumnCompression.PartitionCompressed` | apps/standalones/adm/adm-partition-ssb/main.cpp:496-501 | End to end with LZ4, over any older files: success exactly on whole values, decompressed blocks in file order are the input cut at 2 MiB and spread evenly, each at a multiple of 4096 with its own value count; blocks tile a file exactly if it was not longer before than its share, compressed and padded. |
| `ColumnCompression.NothingForLast` | apps/standalones/adm/adm-partition-ssb/main.cpp:301-331 | With more directories than blocks the last file takes no bytes, so any older contents stay. |
| `IoUring.StepInv` | core/storage/lib/io_uring.cpp:67-183 | Every operation, with every behaviour of the kernel, keeps the invariant. |
| `IoUring.ExactlyOnce` | core/storage/lib/io_uring.cpp:61-156 | In every run each descriptor is in exactly one place, each accepted request has run once or is held by exactly one busy descriptor, whose entry reads that request's file at its offset into its buffers, and a submission slot exists whenever a descriptor is free. |
| `IoUring.RunHolds` | core/storage/lib/io_uring.cpp:71-79 | Between any two points of any run a busy descriptor still holds the same callback, iovec and entry, or that callback has run. |
| `IoUring.StepExtends` | core/storage/lib/io_uring.cpp:113-156 | No operation forgets an accepted request or a callback that ran. |
| `IoUring.CallRecords` | core/storage/lib/io_uring.cpp:67-103 | An accepted call is recorded as made and prepares an entry that serves it under its own callback; a call not accepted records nothing. |
| `IoUring.RunRequests` | core/storage/lib/io_uring.cpp:67-103 | In every run the requests are those of the accepted calls, in order. |
| `IoUring.SubmitLaws` | core/storage/lib/io_uring.cpp:105-111 | A submission ends the process exactly when the kernel did not take what was prepared; otherwise it hands all of it over. |
| `IoUring.PollLaws` | core/storage/lib/io_uring.cpp:113-156 | A poll runs the callbacks of the completions it finds, in order, and ends the process exactly when one of them failed. |
| `IoUring.FlushCanFinish` | core/storage/lib/io_uring.cpp:177-183 | After every run that did not end the process and left no failed completion waiting, the kernel can let a flush finish. |
| `IoUring.CallCanBeAccepted` | core/storage/lib/io_uring.cpp:158-163 | And, if there is a descriptor at all, can let the next request be accepted. |
| `IoUring.PollKeeps` | core/storage/lib/io_uring.cpp:113-156 | A poll never raises outstanding work and one that sees a completion lowers it. |
| `IoUring.NotStuck` | core/storage/lib/io_uring.cpp:177-183 | Once all is submitted, outstanding work is always something the kernel can complete. |
| `IoUring.DrainEnds` | core/storage/lib/io_uring.cpp:177-183 | The flush loop ends after at most as many delivering visits as there is outstanding work. |
| `IoUring.WaitEnds` | core/storage/lib/io_uring.cpp:158-163 | The wait for a descriptor ends with the first delivering visit. |
| `IoUring.FlushCompletes` | core/storage/lib/io_uring.cpp:177-183 | After every run, a flush that returns without failure has run every accepted callback exactly once and freed every descriptor. |
| `IoUringPool.IoUringThreadUnsafe.constructor` | core/storage/lib/io_uring.cpp:31-65 | All descriptors start free. |
| `IoUringPool.IoUringThreadUnsafe.PrepareEntry` | core/storage/lib/io_uring.cpp:71-90 | A free descriptor takes the request and its entry serves it, under the next callback; a submission slot is always there. |
| `IoUringPool.IoUringThreadUnsafe.Submit` | core/storage/lib/io_uring.cpp:105-111 | All prepared entries go to the kernel, or, exactly when the count differs, the process ends. |
| `IoUringPool.IoUringThreadUnsafe.Poll` | core/storage/lib/io_uring.cpp:113-156 | The polling loop is the poll step, for every arrival before, during and after reaping. |
| `IoUringPool.IoUringThreadUnsafe.PollUntilRequestsCanBeMade` | core/storage/lib/io_uring.cpp:158-163 | The loop submits and polls until a descriptor is free. |
| `IoUringPool.IoUringThreadUnsafe.Read` | core/storage/lib/io_uring.cpp:67-91 | An accepted read is recorded as made; its descriptor holds buffer and length, and its entry file, own iovec and offset. |
| `IoUringPool.IoUringThreadUnsafe.Readv` | core/storage/lib/io_uring.cpp:93-103 | The same for readv, whose entry points to the caller's iovecs. |
| `IoUringPool.IoUringThreadUnsafe.Flush` | core/storage/lib/io_uring.cpp:177-183 | The loop is the flush step and returns when every descriptor is free. |
| `HtapModes.Oltp.MigrateWorker` | core/oltp/include/oltp.hpp:112-119 | Half the truncated number of workers moves, in the direction of the flag, which flips. |
| `HtapModes.Oltp.ScaleDown` | core/oltp/lib/execution/worker-pool.cpp:455-521 | Which cores the pair-wise loop terminates and adds to the elastic set. |
| `HtapModes.Oltp.MigrateState` | apps/benchmarks/htap/queries/olap-sequence.cpp:801-867 | Between concrete modes the closing assertion is unreachable, the old mode's resources are given back before the new one's are taken, and flag, counter and elastic set are what the new mode says. |
| `HtapModes.Oltp.MigrateThrough` | apps/benchmarks/htap/queries/olap-sequence.cpp:801-867 | The same after any number of migrations from the isolated start, with the exact condition for cores being off. |
| `HtapModes.HalfAwayExactly` | core/oltp/include/oltp.hpp:112-119 | In S1 the static counter is half the configured number exactly when that number is below 256. |
| `HtapModes.VictimsSize` | core/oltp/lib/execution/worker-pool.cpp:455-498 | How many entries a scale-down makes, and that it is the number asked for exactly for even numbers below 256. |
| `HtapModes.GivenUpExactly` | core/oltp/include/oltp.hpp:108-110 | In S3_NI the elastic set has as many entries as configured exactly for even thresholds below 256. |
| `HtapModes.WrongNumbers` | core/oltp/lib/execution/worker-pool.cpp:466-498 | Asked for 3 cores it gives up 8, asked for 258 it gives up 2. |
| `HtapModes.DistinctCores` | core/oltp/lib/execution/worker-pool.cpp:466-468 | How many different cores some pairs are: they overlap once there are more pairs than siblings are apart. |
| `HtapModes.ElasticResources` | apps/benchmarks/htap/queries/olap-sequence.cpp:270-290 | Which OLTP cores the queries take, and that the closing assertion holds exactly for even thresholds the nodes can meet. |
| `HtapModes.TerminatedAfter` | core/oltp/lib/execution/worker-pool.cpp:455-530 | After any run the terminated cores are those of one scale-down if S3_NI was ever entered, and none otherwise. |
| `HtapModes.TerminatedExactly` | core/oltp/lib/execution/worker-pool.cpp:484-485 | A run that has been in S3_NI has terminated as many different cores as configured exactly for even thresholds below 256 whose pairs fit between siblings, or at 511 with siblings 255 apart. |
| `HtapModes.OffExactly` | core/oltp/lib/execution/worker-pool.cpp:484-530 | After any run cores are off exactly when it has been in S3_NI and the threshold is not a multiple of 256. |
| `HtapModes.OffOnlyInMode` | core/oltp/lib/execution/worker-pool.cpp:484-530 | Throughout a run cores are off as the mode says exactly when S3_NI is never left and never entered with a threshold that is a multiple of 256. |
| `HtapModes.CoresStayOff` | core/oltp/lib/execution/worker-pool.cpp:523-530 | After S2, S3_NI, S2 the elastic set is empty and its cores are off. |
| `HtapModes.NextRunInStep` | apps/benchmarks/htap/queries/olap-sequence.cpp:1033-1064 | Exactly when a second run finds flag, counter and elastic set as it assumes, and exactly when it finds the engine as at the start. |
| `HtapFreshness.FreshnessOfTable` | core/oltp/include/oltp.hpp:178-197 | Sums over partitions of both snapshots. |
| `HtapFreshness.Freshness` | core/oltp/include/oltp.hpp:121-133 | Totals over all tables. |
| `HtapFreshness.FreshnessOfQuery` | core/oltp/include/oltp.hpp:140-150 | Totals over the tables a query lists, as often as it lists them. |
| `HtapFreshness.ListedOnce` | core/oltp/include/oltp.hpp:140-150 | Listing distinct tables counts each once. |
| `HtapFreshness.SelectedLaws` | apps/benchmarks/htap/queries/olap-sequence.cpp:888-892 | Fresh records of a selection never exceed those of the database and never underflow. |
| `HtapFreshness.FreshnessRule` | apps/benchmarks/htap/queries/olap-sequence.cpp:888-935 | Both ratios are in [0, 1]; the exact condition of each of the four modes, from record counts and configuration. |
| `HtapSequence.OlapSequence.constructor` | apps/benchmarks/htap/queries/olap-sequence.cpp:295-385 | Statement `j + total * mode` is query j compiled for that mode. |
| `HtapSequence.OlapSequence.RunQuery` | apps/benchmarks/htap/queries/olap-sequence.cpp:1089-1138 | One query: its own snapshot and timed ETL if each query takes one, the mode decided from its ratios, the ETL of S2_ISOLATED, and the plan of that mode at an index in bounds. |
| `HtapSequence.StoryMarks` | apps/benchmarks/htap/queries/olap-sequence.cpp:1079-1128 | Every query runs once per round and in order, with a snapshot before each query or before the first of each round, and none elsewhere. |
| `HtapSequence.PatternShots` | apps/benchmarks/htap/queries/olap-sequence.cpp:1079-1095 | So there are as many snapshots as rounds, or as queries run. |
| `HtapSequence.StoryEtls` | apps/benchmarks/htap/queries/olap-sequence.cpp:1081-1115 | Exactly the ETLs that are due happen, for each of the three causes. |
| `HtapSequence.StoryPlaced` | apps/benchmarks/htap/queries/olap-sequence.cpp:1081-1115 | An ETL made for a query's mode comes right before that query, any other right after a snapshot. |
| `HtapSequence.StoryFresh` | apps/benchmarks/htap/queries/olap-sequence.cpp:1104-1128 | Every query runs in the mode decided from its own ratios, with its plan for that mode, and after an ETL newer than the latest snapshot if the plan reads the local copy. |
| `HtapSequence.PlanFitsEngine` | apps/benchmarks/htap/queries/olap-sequence.cpp:295-385 | Plans share cores exactly when the engine's flag says its workers were migrated, and, if the scale threshold is not 0 modulo 256, use elastic cores exactly when some were given up. |
| `HtapSequence.OlapSequence.Execute` | apps/benchmarks/htap/queries/olap-sequence.cpp:1033-1144 | Every adaptive run of any length is the story of its inputs, with all of that: snapshots, ETLs, modes, plans and order; first the warm-up, which is the first query's plan for S1_COLOCATED; flag, counter and elastic set end in step, and cores were terminated exactly if some query ran in S3_NI. |
| `TraceStream.StreamAgrees` | tools/tracing/TimelineParser/trace_generator.py:199-208 | The writer's table and the reader's are inverse to each other after every call. |
| `TraceStream.DecodesToCalls` | tools/tracing/TimelineParser/trace_generator.py:290-338 | A reader of the packets recovers exactly the calls, in order, with every name resolved. |
| `TraceStream.FlushedDecodes` | tools/tracing/TimelineParser/trace_generator.py:135-141 | Every flushed prefix decodes to the calls flushed. |
| `TraceStream.DefinedOnce` | tools/tracing/TimelineParser/trace_generator.py:203-207 | Ids are defined once each, as 1, 2, 3, ... in stream order. |
| `TraceStream.UuidsDistinct` | tools/tracing/TimelineParser/trace_generator.py:147-197 | No two tracks share a uuid. |
| `TraceGenerator.Generator.constructor` | tools/tracing/TimelineParser/trace_generator.py:90-133 | The stream starts with the three set-up packets. |
| `TraceGenerator.Generator.Flush` | tools/tracing/TimelineParser/trace_generator.py:135-141 | Flushing moves the buffer to the file, losing and reordering nothing. |
| `TraceGenerator.Generator.FlushIfNecessary` | tools/tracing/TimelineParser/trace_generator.py:171-173 | The buffer is written exactly when it is longer than the threshold. |
| `TraceGenerator.Generator.GetIidFor` | tools/tracing/TimelineParser/trace_generator.py:199-208 | A reader of the stream so far who adds the definitions resolves the id to the name and earlier ids as before; both tables are again inverse; a definition is given exactly for a new name. |
| `TraceGenerator.Generator.CreateTrack` | tools/tracing/TimelineParser/trace_generator.py:175-197 | A track gets the next uuid. |
| `TraceGenerator.Generator.TrackOpen` | tools/tracing/TimelineParser/trace_generator.py:290-312 | Opening a slice extends the stream by exactly that call; at most the threshold stays buffered. |
| `TraceGenerator.Generator.TrackClose` | tools/tracing/TimelineParser/trace_generator.py:314-326 | The same for closing. |
| `TraceGenerator.Generator.TrackInstant` | tools/tracing/TimelineParser/trace_generator.py:254-276 | The same for instants; a call without a flow raises, exactly then, after its packet was added and without flushing. |
| `TraceGenerator.Generator.TrackCount` | tools/tracing/TimelineParser/trace_generator.py:328-338 | The same for counters. |
| `TraceGenerator.Generator.FileDecodes` | tools/tracing/TimelineParser/trace_generator.py:135-141 | At any moment the file decodes to exactly the calls flushed so far. |

## Left out

- Query plan builders, code generation, plugins, cluster control and front ends: plumbing, or meaning that lives in other systems.
- jsmn strict mode, parent links, tight tokens and debug output: not compiled in this configuration.
- Texts of 2 GiB and more, where jsmn's 32-bit fields wrap.
- What a C program does after a write past the token array: the model stops there with the result `OVERRUN`.
- Type widths below 4 bytes in the loaders: the scale factor is 0 and the original divides by it.
- 64-bit wrap-around of sizes and offsets, outside the bound of `NoOverflow`.
- Alignments that are not multiples of 4: the page size and the block size of 4-byte values are.
- LZ4, mmap, pread, liburing, CUDA, rapidjson, protobuf: foreign code, represented by arguments.
- The debug-only read-back inside `writeCompressedBlocksToFiles`: it is `CompressThenDecompress` on the bytes just written.
- The thread pool of `compressBlocks`: futures are collected in order, so the result is the sequential one.
- Callbacks that call back into the io_uring object, and its destructor, which repeats `flush`.
- Pools above 65536 descriptors, which the free set's ring buffer cannot hold.
- `readv` failure callbacks: not set by the original; a failed completion ends the run.
- Several OLAP clients sharing the static migration flag, the micro benchmark sequence and fixed-mode runs.
- `scale_down` on machines with fewer cores or workers than its loop indexes, and core ids above 255, which the elastic set truncates.
- Pausing and hot-plugging of workers: no migration does either.
- Core selection in `getColocatedResources`, and whether the cores `getElasticResources` takes are the ones given up: tied to one machine layout.
- Rounding of doubles in the freshness ratios: the decision is modelled over the reals.
- Debug annotations and source locations of trace packets: they do not take part in interning of names.
