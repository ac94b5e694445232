# A verified model of termux-x11's block compressor, XDMCP cipher and buffer protocol

The main part models libbzip2 as this repository builds it: every layer of the compressor and of the decompressor, in the
form the program has it, and the proof that the decompressor returns what the compressor took.

- **Blocks.** `BlockBuffer` collects input with the initial run-length coding. `Rotations` and `BurrowsWheeler` say what a
  sorted order of rotations is and why it can be undone, also for periodic blocks; `SortAgreement` says what different
  sorts agree on.
- **Sorting.** `ExponentialSort` is fallbackSort, prefix doubling over `QuickSort` with the invariants in
  `PrefixDoubling`. `MainSort` is mainSort: `MainRadixSort` (words of two bytes), `MainRunningOrder`, then for each big
  bucket `MainSmallBuckets` (Step 1, over `MainQuickSort`, `MainShellSort` and the comparison in `MainCompare`),
  `MainScanResult` (Step 2, on what `MainBucketOrder`, `MainBucketScan` and `MainBucketCopy` prove about the two scans)
  and `MainQuadrants` (Step 3).
- **Coding.** `MtfEncoder` writes move-to-front and zero-run symbols over the sort pointers in place. `TableChoice`,
  `CodeLengths` (over `Heap`, `HuffmanTree` and, for why the code is shortest,
  `HuffmanOptimal`), `Canonical` and `BlockWriter` choose tables and write the bits through
  `BitStream`. `BlockCompressor` is one block, `CompressStream` the resumable stream around it.
- **Decoding.** `DecodeMachine` is BZ2_decompress as a machine over bits, one state for each place where the program waits
  for input. The `...Format` modules define the bits of each part of a stream and prove that the machine reads them back;
  `BlockRoundTrip` and `StreamFormat` put them together. `Decompressor` is the implementation, with the arrays
  of a block's header (`HeaderTables`), code tables, the sliding move-to-front list (`SlidingMtf`) and the column
  (`MtfDecoder`); it refines the machine step by step. `InverseTransform` holds both inverse transforms, `RunDecoder` both
  output loops, `DecompressStream` the calls, and `StreamSoundness` what any input must be for the end of a stream to be
  reported. `RoundTrip` joins the two ends: `RoundTrip.ThereAndBack` is the whole way from data to data.
- **Cipher.** `Des` is the cipher of FIPS PUB 46 as Wraphelp.c computes it, with the S-boxes and the key schedule as
  parameters, and `DesBits` what it does to every bit; `Wrapping` is the chaining of XdmcpWrap and XdmcpUnwrap.
- **Buffers.** `BufferOwnership` models the renderer's three buffer lists as steps of two threads; `RendererThreads` are
  the locked sections that take those steps.

Where the program updates something step by step, the model is a method or a class proved against a specification
function or machine, and the promises are proved about that. The bit operators on unsigned words are functions on naturals
(`Bits`), with the 32-bit truncation written out; checksums and the cipher use bit vectors. The caller's buffers are
sequences: `Stream.nextIn` is what is offered at next_in, `Stream.out` everything ever stored at next_out.

Findings worth knowing:

- After BZ_FLUSH has returned BZ_RUN_OK up to 32 bits may still be in the bit buffer; `CompressStream.Compressor.Flushed`
  states exactly what has been written.
- When a block fills up in mid-run the pending run goes to the next block, so that runs are cut at block ends
  (`CompressStream.Compressor.CloseFullBlock`).
- A stream ends in error if a block ends in four equal bytes without their count (`RunDecoder.UncountedRun`); the
  compressor never makes such a block (`RunLength.RunsRestored`).
- The order of equal rotations is left to the sort. The last column does not depend on it, but origPtr does if and only
  if the block is periodic (`SortAgreement.OrigPtrUniqueIff`); so the remark at blocksort.c:1059-1060, that the stream is
  the same whichever sort is used, is guaranteed for blocks that are not periodic only.
- BZ_N_OVERSHOOT has no spare cell: for every block length there is a comparison that reads the last one
  (`MainCompare.OvershootTight`).
- rendererRemoveBuffer frees a buffer that is not attached yet if and only if one reference is left
  (`BufferOwnership.RemoveFreesIff`); otherwise the buffer stays and will be attached, while rendererRemoveAllBuffers
  frees it (`BufferOwnership.RemoveAllFrees`). `BufferOwnership.PendingSurvives` is a reachable state that shows both.

## Model

| member | source | states |
|---|---|---|
| `StreamFormat.StreamRestored` | tx11/src/main/cpp/bzip2/decompress.c:195-645 | Whole stream: for all parts, decoding the bits of the stream gives back every block, every block checksum and the combined checksum agree, the unpacked blocks are the plain input, and what follows the stream is left alone |
| `RoundTrip.StreamDecodes` | tx11/src/main/cpp/bzip2/bzlib.c:808-858 | The bytes of any complete stream decode, from the initial state, to exactly its parts and plain input |
| `RoundTrip.CompressedIsGood` | tx11/src/main/cpp/bzip2/bzlib.c:407-464 | The output of a compressor that reported the end of its stream is a good stream for a new decompressor, fast or small, whose plain text is everything the compressor took |
| `RoundTrip.DecompressAll` | tx11/src/main/cpp/bzip2/bzlib.c:808-858 | A new decompressor, fast or small, that is given the whole output of a finished compressor and more room than the plain text takes reports the end of the stream in one call, having written exactly what the compressor took |
| `RoundTrip.ThereAndBack` | tx11/src/main/cpp/bzip2/bzlib.c:407-464 | For all data, block sizes, work factors and both decompressors: compressing in one call answers BZ_STREAM_END whenever room is left over, and whenever it answers so, decompressing gives the data back |
| `BlockRoundTrip.BlockRestored` | tx11/src/main/cpp/bzip2/compress.c:602-667 | For every block, every permutation that weakly sorts its rotations and every adequate coding, the decoding machine reads exactly the block's bits and holds that block |
| `BlockRoundTrip.RecordRestored` | tx11/src/main/cpp/bzip2/decompress.c:266-582 | The same for a block together with all the choices made in compressing it |
| `Rotations.OrderIsLexicographic` | tx11/src/main/cpp/bzip2/blocksort.c:347-469 | The byte-by-byte comparison over one turn, which both sorts make, is the lexicographic order of the rotated strings |
| `Rotations.FullTurnDecides` | tx11/src/main/cpp/bzip2/blocksort.c:347-469 | Rotations that agree on one full turn agree to every depth |
| `BurrowsWheeler.SortedOrdersAgree` | tx11/src/main/cpp/bzip2/blocksort.c:212-329 | Any two weakly sorted orders show equal rotations row by row, so the last column does not depend on how ties were broken |
| `BurrowsWheeler.LinkAdvances` | tx11/src/main/cpp/bzip2/decompress.c:565-570 | From the row of a rotation the link leads to a row showing the next rotation, also for periodic blocks with several cycles |
| `BurrowsWheeler.WalkRestoresBlock` | tx11/src/main/cpp/bzip2/bzlib_private.h:444-456 | nblock steps from the row of the unrotated block emit the original block in order |
| `SortAgreement.SameColumn` | tx11/src/main/cpp/bzip2/blocksort.c:1056-1061 | Whichever sort is used, the last column is the same |
| `SortAgreement.OrigPtrUniqueIff` | tx11/src/main/cpp/bzip2/blocksort.c:1056-1061 | The row of the unrotated block, origPtr, is the same for all sorts if and only if the block is not periodic |
| `MainSort.Sort` | tx11/src/main/cpp/bzip2/blocksort.c:751-1011 | When the budget lasts, ptr lists the rotations of the block in order, and it is not even touched unless two rotations begin with the same 20 bytes; the block is unchanged in any case |
| `MainSort.SortBigBucket` | tx11/src/main/cpp/bzip2/blocksort.c:868-1005 | One round of the main loop: the big bucket is done, every flagged small bucket is in order and the quadrants stay meaningful; assertion 1006 holds |
| `MainScanResult.ScanBucket` | tx11/src/main/cpp/bzip2/blocksort.c:911-943 | Step 2: once all [ss, j] with j not ss are in order, two scans put every [t, ss] of a big bucket that is not done in order, [ss, ss] too, and move nothing else; assertion 1007 holds |
| `MainScanResult.ScanEnd` | tx11/src/main/cpp/bzip2/blocksort.c:911-943 | What the scans leave: every [t, ss] of a big bucket not done is in order, no other row has moved, and in [ss, ss] the scans have met, unless the block is one repeated byte |
| `MainBucketScan.ScansFill` | tx11/src/main/cpp/bzip2/blocksort.c:919-934 | The rows found by both scans are all rows of [t, ss], in order, each once |
| `MainBucketScan.LeftComplete` | tx11/src/main/cpp/bzip2/blocksort.c:923-928 | The scan from the left reaches every rotation of the bucket whose run of ss ends in a smaller byte, also through the rows it writes itself |
| `MainBucketScan.RightComplete` | tx11/src/main/cpp/bzip2/blocksort.c:929-934 | The scan from the right reaches the others |
| `MainBucketOrder.LowBeforeHigh` | tx11/src/main/cpp/bzip2/blocksort.c:911-917 | A run of ss that ends in a smaller byte sorts before one that ends in a larger byte |
| `MainBucketOrder.ScanOrdered` | tx11/src/main/cpp/bzip2/blocksort.c:911-917 | Going back one position keeps the order among rotations that begin with the same byte |
| `MainBucketCopy.LeftTurn` | tx11/src/main/cpp/bzip2/blocksort.c:923-928 | One step of the scan from the left writes to a free row of the right bucket and keeps what the scans have written |
| `MainBucketCopy.RightTurn` | tx11/src/main/cpp/bzip2/blocksort.c:929-934 | The same for the scan from the right, which never runs into the rows of the first |
| `MainBucketCopy.RangeOrdered` | tx11/src/main/cpp/bzip2/blocksort.c:829-832 | Neighbouring small buckets in order make a range in order |
| `MainSmallBuckets.SortRow` | tx11/src/main/cpp/bzip2/blocksort.c:878-907 | Step 1: after it every [ss, j] with j not ss is flagged and in order, and what was in order still is |
| `MainQuadrants.UpdateQuadrants` | tx11/src/main/cpp/bzip2/blocksort.c:989-1004 | Step 3: 16-bit quadrants, shared by neighbouring rows of a large bucket, still order the rotations wherever they differ, in the overshoot area too; assertion 1002 holds |
| `MainRunningOrder.FindRunningOrder` | tx11/src/main/cpp/bzip2/blocksort.c:831-861 | The big buckets in a shell sort, least full first |
| `MainRadixSort.CountWords` | tx11/src/main/cpp/bzip2/blocksort.c:769-792 | The frequencies of all two-byte words |
| `MainRadixSort.PlacePositions` | tx11/src/main/cpp/bzip2/blocksort.c:802-830 | Every position lies in the rows of its two-byte word, and ftab holds the first row of each |
| `MainQuickSort.MainQSort3` | tx11/src/main/cpp/bzip2/blocksort.c:620-717 | When the budget lasts the range is in the order of its rotations, otherwise it is permuted; at most 43 of 100 stack entries are used (assertion 1001) |
| `MainQuickSort.MainPartition` | tx11/src/main/cpp/bzip2/blocksort.c:660-687 | The in-place three-way pass by the byte at depth d |
| `MainQuickSort.ThreeWayOrders` | tx11/src/main/cpp/bzip2/blocksort.c:696-706 | Among rotations that agree on d bytes the three parts are in order |
| `MainQuickSort.LevelsSplit` | tx11/src/main/cpp/bzip2/blocksort.c:696-715 | Pushing the three parts, largest first, keeps the stack logarithmic and the depth at most 15 |
| `MainShellSort.MainSimpleSort` | tx11/src/main/cpp/bzip2/blocksort.c:484-555 | Shell sort of rotations that agree on d bytes: permuted, and in order when the budget lasts |
| `MainCompare.MainGtU` | tx11/src/main/cpp/bzip2/blocksort.c:347-469 | The verdict is that of the rotation order, also through quadrants and after a full turn, every cell read lies in the block or its overshoot area, and the budget is charged only for agreement, 8 bytes each time, beyond the first 12 |
| `MainCompare.OvershootTight` | tx11/src/main/cpp/bzip2/bzlib_private.h:186-189 | For every block length there is a comparison, with 15 bytes known to agree, whose next 19 cells agree up to the last cell of the overshoot area, so that MainGtU reads that cell |
| `MainCompare.OrdersDecide` | tx11/src/main/cpp/bzip2/blocksort.c:347-469 | Counting smaller rotations orders the rotations |
| `ExponentialSort.FallbackSort` | tx11/src/main/cpp/bzip2/blocksort.c:212-329 | fmap ends as a permutation whose rotations are lexicographically non-decreasing, and the block is rebuilt exactly |
| `ExponentialSort.Refine` | tx11/src/main/cpp/bzip2/blocksort.c:260-313 | The passes with doubled depth end with every rotation in order |
| `ExponentialSort.SkipBits` | tx11/src/main/cpp/bzip2/blocksort.c:279-291 | The word-skipping scan stops where the bit-by-bit scan stops |
| `ExponentialSort.Reconstruct` | tx11/src/main/cpp/bzip2/blocksort.c:315-328 | The byte block is rebuilt from the sorted order |
| `ExponentialSort.RefinedBucket` | tx11/src/main/cpp/bzip2/blocksort.c:294-305 | Sorting one class by the class h positions on, and marking the changes, keeps the pass invariant |
| `PrefixDoubling.PassDoubles` | tx11/src/main/cpp/bzip2/blocksort.c:260-313 | A finished pass orders rotations by 2h bytes, and header bits mark exactly the 2h-equal classes |
| `PrefixDoubling.ClassesRankNext` | tx11/src/main/cpp/bzip2/blocksort.c:266-271 | The class numbers a pass assigns order positions by the h bytes that follow the first h |
| `PrefixDoubling.FullDepthIsSorted` | tx11/src/main/cpp/bzip2/blocksort.c:311-312 | When the depth has passed the block length the order is complete |
| `QuickSort.FallbackQSort3` | tx11/src/main/cpp/bzip2/blocksort.c:93-180 | The range is permuted and sorted by class, and the explicit stack of 100 entries never overflows for 900000 elements |
| `QuickSort.FallbackSimpleSort` | tx11/src/main/cpp/bzip2/blocksort.c:32-64 | The range is permuted and sorted by class, in two stages with stride 4 and 1 |
| `QuickSort.StackSplit` | tx11/src/main/cpp/bzip2/blocksort.c:164-176 | Pushing the larger part first keeps the stack logarithmic in the size of the range on top |
| `QuickSort.NonEmptyIsShallow` | tx11/src/main/cpp/bzip2/blocksort.c:107-114 | A stack whose ranges halve cannot be deeper than the block size allows |
| `MoveToFront.SymbolsDecode` | tx11/src/main/cpp/bzip2/decompress.c:381-492 | The decoder recovers the exact column from the symbols of the encoder, with the run guard never reached |
| `MoveToFront.RunDigitsValue` | tx11/src/main/cpp/bzip2/compress.c:163-182 | The RUNA/RUNB digits of n spell n |
| `MoveToFront.RunValueDigits` | tx11/src/main/cpp/bzip2/decompress.c:386-404 | Every digit string is the run of its value: the numeration is bijective |
| `MoveToFront.StepsRun` | tx11/src/main/cpp/bzip2/decompress.c:386-404 | Reading a run's digits adds its value, and the guard on N does not fire |
| `MoveToFront.RunFits` | tx11/src/main/cpp/bzip2/decompress.c:392-399 | A run within a block has at most 19 digits, far from the guard of 2*1024*1024 |
| `MoveToFront.SymbolsLength` | tx11/src/main/cpp/bzip2/compress.c:128-149 | A column of n bytes needs at most n + 1 symbols |
| `MoveToFront.SymbolsBounded` | tx11/src/main/cpp/bzip2/compress.c:163-230 | The end-of-block symbol stands at the end and only there |
| `MtfEncoder.MakeMapsE` | tx11/src/main/cpp/bzip2/compress.c:106-116 | unseqToSeq numbers the bytes in use, in order |
| `MtfEncoder.MtfOutput.Put` | tx11/src/main/cpp/bzip2/compress.c:188-214 | A 16-bit symbol overlaid on the sort pointers changes one half word and its frequency |
| `MtfEncoder.GenerateMtfValues` | tx11/src/main/cpp/bzip2/compress.c:120-232 | The symbols of the last column, written over the pointers without destroying an unread one, at most nblock + 1 of them |
| `MtfEncoder.RenumberedCovered` | tx11/src/main/cpp/bzip2/compress.c:106-116 | Every byte of the column has a place in the initial list |
| `CodeLengths.MakeCodeLengths` | tx11/src/main/cpp/bzip2/huffman.c:63-148 | Terminates for every frequency table; all lengths are in 1..maxLen, the Kraft sum is exactly 1, and no prefix code has a smaller sum of weight times length, for the frequencies (at least 1 each) or, after k scalings, for the weights halved k times; each scaling was called for by a shortest code with a word of more than maxLen bits |
| `CodeLengths.LightIsShortest` | tx11/src/main/cpp/bzip2/huffman.c:123-146 | With a total below the Fibonacci number of maxLen + 1 nothing is scaled: the code is shortest for the frequencies as they stand |
| `HuffmanOptimal.TreeIsShortest` | tx11/src/main/cpp/bzip2/huffman.c:91-121 | The depths of the symbols in a tree grown by joining two lightest roots each time are a shortest code |
| `HuffmanOptimal.StageStep` | tx11/src/main/cpp/bzip2/huffman.c:100-110 | Any lengths of the roots before a merge can be exchanged and cut into lengths after it that cost less by the weight of the new node |
| `HuffmanOptimal.TreeCost` | tx11/src/main/cpp/bzip2/huffman.c:114-121 | The weighted depths add up to the weights of the inner nodes |
| `HuffmanOptimal.RoomForUnit` | tx11/src/main/cpp/bzip2/huffman.c:100-105 | Beside a single longest code word there is room for it to be as short as the second longest |
| `CodeLengths.TooLongIsHeavy` | tx11/src/main/cpp/bzip2/huffman.c:126-146 | A length above maxLen needs a total weight of at least a Fibonacci number, which scaling undercuts |
| `CodeLengths.TreeGivesGoodLengths` | tx11/src/main/cpp/bzip2/huffman.c:114-127 | The depths of the finished tree are the lengths of a complete code |
| `CodeLengths.ScaledTotal` | tx11/src/main/cpp/bzip2/huffman.c:141-146 | Scaling makes the total weight smaller |
| `HuffmanTree.TreeIsComplete` | tx11/src/main/cpp/bzip2/huffman.c:87-113 | The leaves of a merged tree have Kraft sum exactly 1 |
| `HuffmanTree.DepthNeedsWeight` | tx11/src/main/cpp/bzip2/huffman.c:87-113 | A leaf at depth d makes the tree weigh at least the d-th Fibonacci number |
| `HuffmanTree.AddWeightsJoins` | tx11/src/main/cpp/bzip2/huffman.c:24-30 | The packed word adds the frequencies and takes one more than the larger depth |
| `HuffmanTree.MergedHeight` | tx11/src/main/cpp/bzip2/huffman.c:87-113 | Merging the two lightest roots keeps the Fibonacci bound on heights |
| `Heap.UpHeap` | tx11/src/main/cpp/bzip2/huffman.c:33-41 | Restores the heap order after a push, permuting the heap |
| `Heap.DownHeap` | tx11/src/main/cpp/bzip2/huffman.c:44-59 | Restores the heap order after a pop, permuting the heap |
| `Heap.RootIsLightest` | tx11/src/main/cpp/bzip2/huffman.c:44-59 | The root of a heap is a lightest entry |
| `Canonical.AssignCodes` | tx11/src/main/cpp/bzip2/huffman.c:152-165 | Every symbol gets its canonical code |
| `Canonical.CreateDecodeTables` | tx11/src/main/cpp/bzip2/huffman.c:170-200 | limit, base and perm describe exactly that code |
| `Canonical.PrefixFree` | tx11/src/main/cpp/bzip2/huffman.c:152-165 | For every feasible length table no code is a prefix of another symbol's |
| `Canonical.ReadWritten` | tx11/src/main/cpp/bzip2/decompress.c:74-102 | The decoding loop reads back every written symbol and consumes exactly its code |
| `Canonical.CodeFits` | tx11/src/main/cpp/bzip2/huffman.c:152-165 | With Kraft sum at most 1 every code fits its length |
| `Canonical.SymbolInAlphabet` | tx11/src/main/cpp/bzip2/decompress.c:74-102 | Whatever the bits, a decoded symbol is one of the alphabet |
| `TableChoice.InitialTables` | tx11/src/main/cpp/bzip2/compress.c:279-316 | The alphabet is split into consecutive ranges, each the shortest that reaches its share of the frequencies left, every other one without its last symbol; each initial table is cheap in exactly one range |
| `TableChoice.OccursInOneRange` | tx11/src/main/cpp/bzip2/compress.c:279-316 | Each symbol that occurs is cheap in exactly one initial table |
| `TableChoice.ChooseGroups` | tx11/src/main/cpp/bzip2/compress.c:269-274 | More tables from 200, 600, 1200 and 2400 symbols on |
| `TableChoice.GroupCosts` | tx11/src/main/cpp/bzip2/compress.c:387-393 | The cost of a group under each table, within 16 bits |
| `TableChoice.PackedCosts` | tx11/src/main/cpp/bzip2/compress.c:357-386 | With six tables and a full group, three packed sums give the same six costs: the halves never run into each other and no word overflows |
| `TableChoice.SelectTables` | tx11/src/main/cpp/bzip2/compress.c:338-446 | Every group selects the first of the cheapest tables, and every table tallies exactly the symbols of the groups it won |
| `TableChoice.ChooseTables` | tx11/src/main/cpp/bzip2/compress.c:254-458 | The tables and selectors are those of exactly four passes from the initial split, each taking the first cheapest table for every group and then making each table a shortest code for the groups it won; all lengths form complete codes of at most 17 bits, and there are exactly enough selectors, at most 18002 (assertions 3001 to 3003) |
| `TableChoice.CountsAddUp` | tx11/src/main/cpp/bzip2/compress.c:281-289 | The frequencies add up to the number of symbols |
| `BlockWriter.CodeSelectors` | tx11/src/main/cpp/bzip2/compress.c:461-478 | selectorMtf is the move-to-front code of the selectors |
| `BlockWriter.AssignAllCodes` | tx11/src/main/cpp/bzip2/compress.c:480-492 | Codes for all tables; assertions 3004 and 3005 hold |
| `BlockWriter.SendMapping` | tx11/src/main/cpp/bzip2/compress.c:494-515 | The mapping table goes out as its two-level bit map |
| `BlockWriter.SendSelectors` | tx11/src/main/cpp/bzip2/compress.c:517-524 | Counts and unary selector codes go out |
| `BlockWriter.SendTables` | tx11/src/main/cpp/bzip2/compress.c:528-540 | Lengths go out as differences |
| `BlockWriter.SendData` | tx11/src/main/cpp/bzip2/compress.c:547-596 | Every symbol goes out in the code of its group's table; assertions 3006 and 3007 hold |
| `BlockWriter.SendMtfValues` | tx11/src/main/cpp/bzip2/compress.c:239-598 | The bits sent are those of a coding that serves the symbols |
| `BlockCompressor.BlockSort` | tx11/src/main/cpp/bzip2/blocksort.c:1031-1089 | For every size and work factor, whether fallbackSort, mainSort or both are run: the rotations are sorted, the block is unchanged and origPtr is the row of the unrotated block; assertion 1003 holds |
| `BlockCompressor.WriteBlock` | tx11/src/main/cpp/bzip2/compress.c:602-667 | The bits written for a block are exactly those of a record that restores it, with the tables and selectors that ChooseTables settles |
| `BlockCompressor.FourBytes` | tx11/src/main/cpp/bzip2/compress.c:83-90 | A 32-bit word is written as its four bytes |
| `Capacity.RecordFits` | tx11/src/main/cpp/bzip2/compress.c:619-619 | Header, leftover bits, block, trailer and filling fit behind the block in arr2, for every block and block size |
| `BitStream.BitWriter.Write` | tx11/src/main/cpp/bzip2/compress.c:58-78 | bsW appends exactly the n bits of v to everything written so far |
| `BitStream.BitWriter.FinishWrite` | tx11/src/main/cpp/bzip2/compress.c:46-54 | The last bits go out, filled up with zeros to a byte |
| `BitStream.BitReader.GetBits` | tx11/src/main/cpp/bzip2/decompress.c:43-66 | GET_BITS yields the next n bits of all input, or fails having lost nothing |
| `BitStream.AppendBits` | tx11/src/main/cpp/bzip2/compress.c:73-78 | Or-ing the new bits in below the live ones appends them |
| `BitStream.TakeByte` | tx11/src/main/cpp/bzip2/decompress.c:43-66 | Shifting a byte in appends its bits |
| `HeaderFormat.RunPrologue` | tx11/src/main/cpp/bzip2/compress.c:633-655 | The machine reads back block magic, checksum, the zero randomisation bit and origPtr |
| `HeaderFormat.RunTrailer` | tx11/src/main/cpp/bzip2/decompress.c:588-612 | The machine reads back the stream trailer and stops |
| `HeaderFormat.RunHeader` | tx11/src/main/cpp/bzip2/compress.c:622-628 | The machine reads back the stream header |
| `MappingFormat.RunMapping` | tx11/src/main/cpp/bzip2/decompress.c:266-284 | The mapping table comes back |
| `SelectorFormat.SelectorsRoundTrip` | tx11/src/main/cpp/bzip2/decompress.c:308-320 | Undoing the selectors' move-to-front codes gives the selectors |
| `SelectorFormat.RunSelectorsBits` | tx11/src/main/cpp/bzip2/decompress.c:286-320 | Counts and selectors come back |
| `TableFormat.RunTables` | tx11/src/main/cpp/bzip2/decompress.c:322-335 | The delta-coded length tables come back |
| `DataFormat.RunSymbol` | tx11/src/main/cpp/bzip2/decompress.c:74-102 | One symbol is read bit by bit through limit and base |
| `DataFormat.RunData` | tx11/src/main/cpp/bzip2/decompress.c:378-492 | All symbols of the block come back, each with its group's table |
| `DecodeMachine.NextOk` | tx11/src/main/cpp/bzip2/decompress.c:106-645 | Whatever the bits, every step keeps the machine's invariant |
| `DecodeMachine.RunAppend` | tx11/src/main/cpp/bzip2/decompress.c:43-66 | Splitting the input across calls does not matter |
| `DecodeMachine.RunStep` | tx11/src/main/cpp/bzip2/decompress.c:43-66 | A step takes exactly the bits it waits for |
| `HeaderTables.Tables.ReceiveGroupUse` | tx11/src/main/cpp/bzip2/decompress.c:266-281 | A bit of inUse16; behind the last, inUse is cleared and the next group in use is found |
| `HeaderTables.Tables.ReceiveUse` | tx11/src/main/cpp/bzip2/decompress.c:275-284 | A bit of inUse; behind the last, the byte maps are made |
| `HeaderTables.Tables.ReceiveSelector` | tx11/src/main/cpp/bzip2/decompress.c:288-320 | A bit of a selector: however many selectors are announced, nothing is written behind the 18002 entries of selectorMtf, and the first 18002 are undone |
| `HeaderTables.UndoMtf` | tx11/src/main/cpp/bzip2/decompress.c:308-320 | The in-place loop over pos undoes the move-to-front coding |
| `HeaderTables.MakeMapsD` | tx11/src/main/cpp/bzip2/decompress.c:27-36 | seqToUnseq lists the bytes in use, in order |
| `HeaderTables.Tables.ReceiveLength` | tx11/src/main/cpp/bzip2/decompress.c:322-356 | A bit of a code length: no write outside len[6][258], and behind the last length everything is ready for the first symbol |
| `HeaderTables.Tables.MakeTables` | tx11/src/main/cpp/bzip2/decompress.c:337-353 | Decoding tables and shortest lengths for all groups |
| `HeaderTables.Tables.WaitForSymbol` | tx11/src/main/cpp/bzip2/decompress.c:74-88 | A new group every 50 symbols, or the end of the selectors |
| `HeaderTables.KeptCodes` | tx11/src/main/cpp/bzip2/decompress.c:300-307 | The selectors that are kept are the first announced, each below the number of groups |
| `SlidingMtf.SlidingList.Access` | tx11/src/main/cpp/bzip2/decompress.c:429-480 | The 16-segment list returns the n-th element and moves it to the front of a plain list |
| `SlidingMtf.SlidingList.constructor` | tx11/src/main/cpp/bzip2/decompress.c:364-376 | The initial layout holds 0..255 |
| `SlidingMtf.SlidingList.Rebuild` | tx11/src/main/cpp/bzip2/decompress.c:466-477 | Moving all segments back to the right end keeps the list |
| `SlidingMtf.SlidingNext` | tx11/src/main/cpp/bzip2/decompress.c:466-477 | Copying in place never overwrites an unread cell |
| `MtfDecoder.ColumnDecoder.Take` | tx11/src/main/cpp/bzip2/decompress.c:381-492 | One symbol, with run, list, counts and column, refines the abstract decoder |
| `MtfDecoder.ColumnDecoder.WriteRun` | tx11/src/main/cpp/bzip2/decompress.c:406-425 | A run is written out and counted, or the block is too long |
| `MtfDecoder.StoredPush` | tx11/src/main/cpp/bzip2/decompress.c:482-486 | Storing a byte and counting it keeps the counts exact |
| `Decompressor.LookUp` | tx11/src/main/cpp/bzip2/decompress.c:90-101 | The table lookup decides as the code of the lengths does |
| `Decompressor.LimitBounds` | tx11/src/main/cpp/bzip2/decompress.c:98-100 | The range check on perm never fires for tables built from lengths |
| `Decompressor.ResumeKind` | tx11/src/main/cpp/bzip2/decompress.c:195-356 | Only the last code length leads into the block data |
| `Decompressor.DState.Advance` | tx11/src/main/cpp/bzip2/decompress.c:106-582 | Every step of the implementation, on its arrays of fixed size, is exactly a step of the machine |
| `Decompressor.DState.Decompress` | tx11/src/main/cpp/bzip2/decompress.c:106-645 | A call runs the machine until it stops or input is used up, losing no bit |
| `InverseTransform.MakeFirstRows` | tx11/src/main/cpp/bzip2/decompress.c:500-526 | cftab from the counts; the three range checks cannot fail |
| `InverseTransform.LinkRows` | tx11/src/main/cpp/bzip2/decompress.c:565-570 | T^-1 is built in the high bits of tt without losing a byte |
| `InverseTransform.FastCursor.Get` | tx11/src/main/cpp/bzip2/bzlib_private.h:444-456 | BZ_GET_FAST hands out the byte of the linked row and moves there |
| `InverseTransform.PackedVector.SetLL` | tx11/src/main/cpp/bzip2/bzlib_private.h:458-473 | 16 + 4 bit packing is lossless and touches no other entry |
| `InverseTransform.RankRows` | tx11/src/main/cpp/bzip2/decompress.c:535-540 | T holds the rank of every row |
| `InverseTransform.ReverseCycle` | tx11/src/main/cpp/bzip2/decompress.c:542-551 | Pointer reversal terminates and inverts T on the cycle of origPtr |
| `InverseTransform.IndexIntoF` | tx11/src/main/cpp/bzip2/bzlib.c:687-698 | The binary search returns the byte in whose range of first rows the index falls |
| `InverseTransform.FirstColumn` | tx11/src/main/cpp/bzip2/bzlib.c:687-698 | That byte is the one the fast form returns |
| `InverseTransform.SmallCursor.Get` | tx11/src/main/cpp/bzip2/bzlib_private.h:475-479 | BZ_GET_SMALL hands out the same byte and row as the fast form |
| `InverseTransform.LinksExist` | tx11/src/main/cpp/bzip2/decompress.c:565-570 | Every column has a link |
| `RunLength.RunsRestored` | tx11/src/main/cpp/bzip2/bzlib.c:216-284 | Undoing the initial run-length coding gives the input back, for all runs cut at 255 |
| `RunLength.UnpackRun` | tx11/src/main/cpp/bzip2/bzlib.c:225-247 | A packed run is taken back whatever other run follows |
| `RunLength.ExtendedPlain` | tx11/src/main/cpp/bzip2/bzlib.c:260-284 | One more input byte extends the runs by just that byte |
| `RunLength.RunsExist` | tx11/src/main/cpp/bzip2/bzlib.c:260-284 | Every input is the plain text of runs cut this way |
| `BlockBuffer.Buffer.AddChar` | tx11/src/main/cpp/bzip2/bzlib.c:260-284 | ADD_CHAR_TO_BLOCK takes one byte, with runs, marks and checksum kept exact, and at most five bytes into the block |
| `BlockBuffer.Buffer.AddPairToBlock` | tx11/src/main/cpp/bzip2/bzlib.c:216-248 | The pending run enters the block |
| `BlockBuffer.Buffer.FlushRL` | tx11/src/main/cpp/bzip2/bzlib.c:252-256 | Nothing stays pending and nothing is lost |
| `RunDecoder.Unpacker.UnRleFast` | tx11/src/main/cpp/bzip2/bzlib.c:582-678 | Output fills the room there is, in order and once; a missing last count is reported as corruption |
| `RunDecoder.Unpacker.UnRleSmall` | tx11/src/main/cpp/bzip2/bzlib.c:757-801 | The same for small mode |
| `RunDecoder.Unpacker.AllOut` | tx11/src/main/cpp/bzip2/bzlib.c:645-648 | When the block is used up exactly its plain text has been emitted, the wrapped-around byte never |
| `RunDecoder.Unpacker.SomeOut` | tx11/src/main/cpp/bzip2/bzlib.c:612-678 | However the room is split, what has been emitted is the beginning of the plain text |
| `RunDecoder.EqualRun` | tx11/src/main/cpp/bzip2/bzlib.c:650-671 | A run of one to three bytes, also when the block ends in it |
| `RunDecoder.CountedRun` | tx11/src/main/cpp/bzip2/bzlib.c:673-675 | Four equal bytes and a count |
| `RunDecoder.UncountedRun` | tx11/src/main/cpp/bzip2/bzlib.c:640-643 | Four equal bytes at the very end of a block are not a legal block |
| `CompressStream.Compressor.CopyInputUntilStop` | tx11/src/main/cpp/bzip2/bzlib.c:289-330 | Input is taken from the front, in order, up to the stop conditions; the block stays within nblockMAX + 4 |
| `CompressStream.Compressor.CopyOutputUntilStop` | tx11/src/main/cpp/bzip2/bzlib.c:334-357 | Output is copied in order |
| `CompressStream.Compressor.CloseFullBlock` | tx11/src/main/cpp/bzip2/bzlib.c:388-392 | A full block is closed while the pending run stays for the next block |
| `CompressStream.Compressor.CloseBlock` | tx11/src/main/cpp/bzip2/bzlib.c:383-387 | At the end of input everything pending enters the last block |
| `CompressStream.Compressor.PrepareNewBlock` | tx11/src/main/cpp/bzip2/bzlib.c:117-127 | A new block starts when all output of the last is out, and the bits in the buffer carry over |
| `CompressStream.Compressor.CompressBlock` | tx11/src/main/cpp/bzip2/compress.c:602-667 | Header, block and trailer as due; checksums combined; the round fits behind the block |
| `CompressStream.Compressor.HandleCompress` | tx11/src/main/cpp/bzip2/bzlib.c:361-403 | Terminates for every input and room; nothing is lost or repeated |
| `CompressStream.Compressor.Compress` | tx11/src/main/cpp/bzip2/bzlib.c:407-464 | Over every sequence of calls input is conserved and output is the stream so far; for every mode and action the answer and the next mode are settled: BZ_STREAM_END exactly when a finishing call that moved something leaves a complete stream, BZ_RUN_OK for a flush exactly when all is flushed, an error exactly when nothing moved or the call was out of turn; blocks are cut only when full or at the end of a flush or finish |
| `CompressStream.SentRound` | tx11/src/main/cpp/bzip2/bzlib.c:117-127 | Bits left in the buffer continue the stream in the next round |
| `CompressStream.SentEnd` | tx11/src/main/cpp/bzip2/compress.c:657-667 | The trailer closes the stream |
| `Checksum.ByteErrorDetected` | tx11/src/main/cpp/bzip2/bzlib_private.h:157-172 | For every table whose entries differ in their low bytes, two strings that differ in one byte have different checksums |
| `Checksum.FinalIsComplement` | tx11/src/main/cpp/bzip2/bzlib_private.h:162-165 | Finalising takes the complement |
| `Checksum.CombineTurns` | tx11/src/main/cpp/bzip2/compress.c:604-608 | The combined checksum is turned left one place for each block, so that the order of blocks matters |
| `Checksum.CombineTakes` | tx11/src/main/cpp/bzip2/compress.c:604-608 | A different block checksum makes a different combined checksum |
| `Checksum.CombineKeeps` | tx11/src/main/cpp/bzip2/bzlib.c:832-836 | A difference in the combined checksum so far stays |
| `StreamFormat.PartsDecode` | tx11/src/main/cpp/bzip2/bzlib.c:808-858 | Blocks decode one after the other, in order |
| `DecompressStream.BzDecoder.Decompress` | tx11/src/main/cpp/bzip2/bzlib.c:808-858 | On any input the call terminates and its answer is settled: BZ_DATA_ERROR_MAGIC exactly for wrong magic bytes, BZ_DATA_ERROR exactly for a stop in error, a block that is not whole or a differing checksum, and BZ_STREAM_END only if the bits read decode to blocks with agreeing checksums whose plain text is what was written; on a good stream no error is reported, nothing is lost or repeated between calls, and only missing room can stop a call short of the end once all input is there |
| `StreamSoundness.ExplainsEnd` | tx11/src/main/cpp/bzip2/bzlib.c:844-853 | If the machine has read some blocks of any input at all and reaches the end of a stream whose combined checksum is theirs, then the input decodes to exactly those blocks |
| `StreamSoundness.ExplainsBlock` | tx11/src/main/cpp/bzip2/bzlib.c:822-838 | A block that is whole and has the stored checksum joins the blocks that explain the input |
| `StreamSoundness.MagicErrorIff` | tx11/src/main/cpp/bzip2/decompress.c:197-219 | The machine stops with the magic error if and only if one of the first four bytes, as far as they have come, is wrong |
| `DecompressStream.BzDecoder.FinishBlock` | tx11/src/main/cpp/bzip2/bzlib.c:822-838 | A block is accepted exactly when its checksum agrees |
| `DecompressStream.BzDecoder.PrepareOutput` | tx11/src/main/cpp/bzip2/decompress.c:494-580 | A complete block is turned back, fast or small, with its first byte fetched |
| `DecompressStream.BzDecoder.Feed` | tx11/src/main/cpp/bzip2/bzlib.c:808-858 | More input may be offered at any time |
| `DecompressStream.DecodesOn` | tx11/src/main/cpp/bzip2/decompress.c:43-66 | Running on part of a good stream leaves a good stream |
| `DecompressStream.RunShrinks` | tx11/src/main/cpp/bzip2/bzlib.c:808-858 | Every block takes input, so the loop ends |
| `Des.PermutationsInverse` | tx11/src/main/cpp/libxdmcp/Wraphelp.c:456-490 | The initial and the final permutation undo each other |
| `Des.PermOpTwice` | tx11/src/main/cpp/libxdmcp/Wraphelp.c:363-365 | PERM_OP exchanges bits: done twice it changes nothing |
| `Des.BackwardUndoes` | tx11/src/main/cpp/libxdmcp/Wraphelp.c:471-480 | Sixteen rounds with the reversed schedule undo sixteen rounds, for every round function |
| `Des.Deciphered` | tx11/src/main/cpp/libxdmcp/Wraphelp.c:443-495 | Deciphering undoes enciphering for every schedule and all tables |
| `Des.AuthDoIt` | tx11/src/main/cpp/libxdmcp/Wraphelp.c:443-495 | The loops compute the permuted Feistel network |
| `DesBits.InitialBits` | tx11/src/main/cpp/libxdmcp/Wraphelp.c:456-465 | Each bit of the initial permutation is the bit of the block that the table IP of FIPS PUB 46 names |
| `DesBits.FinalBits` | tx11/src/main/cpp/libxdmcp/Wraphelp.c:481-490 | Each bit of the final permutation is the one the inverse table names |
| `DesBits.RoundBits` | tx11/src/main/cpp/libxdmcp/Wraphelp.c:428-441 | One D_ENCRYPT, bit by bit: every bit of the half that changes is set against the OR of the eight boxes, whose indexes are six named bits of the other half, each set against a named bit of two schedule words |
| `DesBits.DoItEnciphers` | tx11/src/main/cpp/libxdmcp/Wraphelp.c:443-495 | The whole cipher, bit by bit: the halves before round 1 stand in the block as IP says, each half is made from the two before it as a round makes it, with the schedule forward or backward, and the last two stand in the output as IP says |
| `Wrapping.UnwrapsWrapped` | tx11/src/main/cpp/libxdmcp/Unwrap.c:70-87 | Unwrapping undoes wrapping from any first block |
| `Wrapping.WrapRoundTrip` | tx11/src/main/cpp/libxdmcp/Wrap.c:63-84 | For every length the round trip gives the input filled up with zeros |
| `Wrapping.XdmcpWrap` | tx11/src/main/cpp/libxdmcp/Wrap.c:49-85 | Chained encryption of the padded input, also in place: deciphering block i of the output gives padded block i, bit for bit exclusive-or block i - 1 of the output; nothing else is touched |
| `Wrapping.WrappedChained` | tx11/src/main/cpp/libxdmcp/Wrap.c:49-85 | The same of the specification, for every input length |
| `Wrapping.XdmcpUnwrap` | tx11/src/main/cpp/libxdmcp/Unwrap.c:55-88 | Chained decryption of the whole blocks, also when output overwrites input; the rest is untouched |
| `BufferOwnership.InvariantMeans` | tx11/src/main/cpp/lorie/renderer.c:383-421 | Every buffer is in exactly one of added, attached, removed and freed, is freed at most once, never while it is drawn, and after attaching only by the renderer thread |
| `BufferOwnership.RemoveFreesIff` | tx11/src/main/cpp/lorie/renderer.c:390-405 | rendererRemoveBuffer frees a buffer that is not attached yet if and only if it holds the last reference; otherwise the buffer stays in its list with one reference less |
| `BufferOwnership.RemoveAllFrees` | tx11/src/main/cpp/lorie/renderer.c:407-421 | rendererRemoveAllBuffers frees every buffer that is not attached yet, whatever its reference count |
| `BufferOwnership.PendingSurvives` | tx11/src/main/cpp/lorie/renderer.c:390-421 | A reachable state in which the two differ |
| `BufferOwnership.RemoveQueues` | tx11/src/main/cpp/lorie/renderer.c:397-402 | If no added buffer has the id, the first attached one with it moves to the removed buffers; all other buffers, counts and frees stay |
| `BufferOwnership.RemovedIsFreed` | tx11/src/main/cpp/lorie/renderer.c:390-405 | Whatever happens until then, the next reaping frees that buffer, on the renderer thread and only once |
| `BufferOwnership.RemoveUnknown` | tx11/src/main/cpp/lorie/renderer.c:390-405 | An id that no added and no attached buffer has changes nothing |
| `BufferOwnership.RemoveAllQueues` | tx11/src/main/cpp/lorie/renderer.c:407-421 | No buffer stays added or attached, each attached one is among the removed ones, and nothing but added buffers is released |
| `BufferOwnership.AttachTakesAll` | tx11/src/main/cpp/lorie/renderer.c:642-648 | No buffer stays added, and each of them is attached; nothing else changes |
| `BufferOwnership.LookupDraws` | tx11/src/main/cpp/lorie/renderer.c:518-528 | What is drawn is the first attached buffer with the id, else the first removed one, else nothing |
| `BufferOwnership.ReapFrees` | tx11/src/main/cpp/lorie/renderer.c:657-661 | No buffer stays removed; each of them has been freed once, by the renderer thread, and no other |
| `BufferOwnership.StepKeeps` | tx11/src/main/cpp/lorie/renderer.c:642-661 | Every section of either thread keeps the invariant |
| `BufferOwnership.AlwaysOwned` | tx11/src/main/cpp/lorie/renderer.c:608-665 | After every interleaving the invariant holds |
| `RendererThreads.Renderer.RemoveAllBuffers` | tx11/src/main/cpp/lorie/renderer.c:407-421 | Added buffers are released, attached ones queued for the renderer thread, whatever their reference counts |
| `RendererThreads.Renderer.RemoveBuffer` | tx11/src/main/cpp/lorie/renderer.c:390-405 | The first matching buffer that is not attached is released; if there is none, the first attached one moves to the removed buffers |
| `RendererThreads.Renderer.AttachPending` | tx11/src/main/cpp/lorie/renderer.c:642-648 | All pending buffers become attached |
| `RendererThreads.Renderer.ReapRemoved` | tx11/src/main/cpp/lorie/renderer.c:657-661 | All removed buffers are freed by the renderer thread |
| `RendererThreads.Renderer.LookupBuffer` | tx11/src/main/cpp/lorie/renderer.c:518-528 | The buffer is looked for among attached, then removed |
| `RendererThreads.Renderer.FindById` | tx11/src/main/cpp/lorie/buffer.c:458-464 | The first buffer with the id |

## Left out

- BlockCompressor.BlockSort: mainSort works on a copy of the block with an overshoot area of its own instead of in arr2, and quadrants are an array of their own.
- MainCompare.MainGtU, MainSort.Sort: unrolled comparisons and counting loops are written as loops, and the budget is unbounded.
- DecompressStream.BzDecoder.Decompress: does not model randomised blocks; the bit is read and kept, but the compressor always writes 0.
- DecompressStream.BzDecoder.PrepareOutput: in small mode the column is collected in an array of its own and then copied into ll16.
- Decompressor.DState.StartData: tt, unzftab and the move-to-front list are made anew for each block instead of once per stream, and so are limit, base and perm in HeaderTables.Tables.MakeTables.
- ExponentialSort.FallbackSort: bhtab is an array of flags read 32 at a time, and the classes do not share memory with the block but overwrite it with arbitrary bytes.
- BlockCompressor.WriteBlock: its work arrays are made anew for each block instead of sharing arr1, arr2 and ftab; that zbits stays behind the block is `Capacity.RecordFits`.
- Checksum.Update: takes the 256-word table as a parameter; the contents of crctable.c are not part of this model.
- Des.Round: takes the S-boxes as a parameter, and the schedule is any 32 words; the making of the schedule from a key is not part of this model.
- A call after BZ_DATA_ERROR: the program would resume at its last wait, the model reports the error again.
- DecompressStream.BzDecoder.FinishBlock: finalises a copy of calculatedBlockCRC; the program finalises it in place, so that a call repeated after the error would compare its complement.
- RunDecoder.Unpacker.UnRleFast: accounts for the bytes written before corruption was found; the program returns without storing next_out and avail_out then, so that the caller does not see them.
- total_in and total_out counters, verbosity, allocation failure and the parameter checks of the Init functions.
- The stdio and buffer-to-buffer wrappers and the command-line programs.
- Key handling, sockets and arrays in libxdmcp, and libxau.
- EGL, drawing, window changes and the wake-up of the renderer thread: only the buffer lists and their locked sections are modelled.
- The Android user interface, the X server glue and everything else in the repository.
