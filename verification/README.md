# Verified models of vendored codecs and tools

A Dafny model of the algorithmic cores of the libraries this repository vendors: the bzip2 compressor and decompressor
from blocks to whole streams, the LZMA range coder, symbol encoder, incremental decoder and binary-tree match finder, bsdiff and bspatch,
the x86 branch filter, the PPMd heap, the coder-thread ring, the match finder's three threads and their block queues, the
DynASM encoding engine, and the z-order index of earcut. Every algorithm keeps the form of the source: arrays are permuted,
shifted and relinked in place, loops are loops, and each such method is proved against a definition that does not mention
how it works.

`dafny verify dfyconfig.toml` checks the whole project.

## How it is put together

- Numbers and orders: `Residues`, `Bytes`, `Bits`, `Permutations`, `Counting`, `Rotations`, `SuffixOrder`, `Doubles`.
- bzip2, from a text to bytes and back: `RunLength`, `RunLengthEncoder`, `RunLengthDecoder`, `RunLengthSmall`;
  `FallbackQSort`, `FallbackSort`, `InverseBwt`; `MoveToFront`, `MtfEncoder`, `MtfStore`, `MtfDecoder`, `BlockCoding`;
  `HuffmanHeap`, `HuffmanForest`, `HuffmanOptimal` (no code is cheaper), `HuffmanLengths`, `HuffmanCodes`, `HuffmanTables`, `HuffmanCoding`; `BitStream`,
  `BlockStream`, `BlockText`; `BzStream` (whole streams: header, check sums, trailer).
- LZMA: `RangeCoder`; `LzmaSymbol` (which probability each bit of a symbol is read under), `LzmaInputBound`,
  `LzmaDummy`, `LzmaCore` and `LzmaStream` (what symbols mean: probabilities, state, distances, output, end mark),
  `LzmaFeed` (input in pieces), `LzmaReal`, `LzmaDict`, `LzmaWork`, `LzmaDecoder` (the decoder itself, on its arrays),
  `LzmaSlices`; `LzmaStrokes` (the bits the encoder writes for a packet), `LzmaRoundTrip`, `LzmaSlots`, `LzmaEncoder`,
  `LzmaText` (encoding and decoding again); `MatchTree`, `MatchWalk`, `MatchFinder`, `MatchLongest`, `MatchRuns`.
- bsdiff: `SuffixPartition`, `SuffixRanks`, `SuffixRuns`, `SuffixSplit`, `SuffixSort`, `Offsets`, `BsPatch`, `BsDiff`.
- x86 filter: `BranchWords`, `X86Filter`, `X86Branches` (which bytes move, in plain numbers). PPMd heap: `PpmdTables`, `PpmdHeap`, `PpmdRing`, `PpmdGlue`,
  `PpmdAllocator`. Threads: `CoderRing`, `CoderStart` (a ring that cannot be started whole), `BlockQueue`,
  `QueueChain` (two queues, three threads, two locks).
- DynASM: `DasmActions` (what an action string stores), `DasmLabels` (label tables as functions of what happened),
  `DasmLayout` (addresses), `DasmCode` (bytes, and branches as a processor reads them), `DasmState`, `DasmPlan`,
  `DasmStore`, `DasmLink`, `DasmEmit`, `Dasm` (the three passes on their buffers).
- earcut: `EarcutOrder`, `EarcutNodes`, `EarcutSort`, `Earcut`, `EarcutTriangle` (what the triangle test means),
  `EarcutRounding`.

## What the words mean

- A *rotation* of a block is compared byte by byte over the block's length; equal rotations may stand in any order.
  `Rotations.CmpIsLex` says that this comparison is equality and lexicographic order of the rotations written out.
- The LZMA decoder's input limit is counted in bytes of output from the start of the stream (`Goal.limit`), the finish
  mode is `Goal.finish`. `VerdictOn` is what a decoder given the whole input at once says: an error, or the bytes
  written, how many input bytes its symbols used, and the status. At an error the source stores no local variable, so
  how much has reached the dictionary by then depends on where the input was cut; a `Wrong` verdict therefore names no
  output. The running position is kept unbounded: the source uses only its low bits, and compares it only before the
  dictionary has been filled once.
- JavaScript numbers are reals rounded to 53 significant bits (`Doubles.Rounded`), with unbounded exponents;
  `Doubles.RoundedNearest` says that no such number is nearer, and that of two as near the even one is taken. With them the claim that the z-order index makes no difference is false: `EarcutRounding.IndexHides`
  gives rings, of any number of points from five on, with integer coordinates, in the box that the code finds for them,
  where the indexed test calls a vertex an ear and the plain test does not. What the indexed test computes is
  `Earcut.IsEarHashed`'s contract for all coordinates. `Earcut.SameTip` makes it the plain test where all coordinates are
  multiples, by integers below 2^25 in absolute value, of one power of two, positive or negative (`Earcut.OneGrid`): there
  every difference, product and difference of products is exact.
- A bzip2 check sum is 32 bits of a text, and the sum of all blocks is made of the sum so far and the next block's;
  which functions these are is a parameter (`BzStream.Sums`), and nothing else about them is used. A stream states a sum
  for each block and one for all, right or wrong (`BzStream.StreamWith`). How a compressor's
  blocks become bytes is a parameter of `RunLengthEncoder.Compressor` too; `BzStream.Faithful` says that they become
  streams, and `BzStream.WriteAll` that the modelled writer makes them so.
- What the LZMA encoder writes depends on the packets it is asked for, a parameter; `LzmaEncoder` codes literals, matches,
  repeats and the end mark as the source does, on its own tables.
- A triple of a bsdiff patch is chosen in a turn of the search (`BsDiff.Turned`): on to the first place where the match
  found agrees with the old offset or beats it by more than eight, stretched to both sides as far as gains most.
- DynASM's checks are those of a build with `DASM_CHECKS`, as the repository's build script makes it. An action string
  must be one the preprocessor writes (`DasmActions.Read` says what each stores): a branch comes directly after its
  opcode and a mask is 2^n - 1. Offsets are unbounded; branches are read for code below 2^31 bytes.
- `BlockQueue`, `QueueChain` and `CoderRing` are step relations: any enabled thread may move next, and all statements are
  about every run.

## Model

| member | source | states |
|---|---|---|
| Rotations.CmpIsLex | todo-later/csrc/libbzip2/blocksort.c:212-313 | comparing two rotations index by index is equality and strict lexicographic order of the rotations written out |
| FallbackQSort.FallbackQSort3 | todo-later/csrc/libbzip2/blocksort.c:93-180 | for every stretch of the map it becomes a rearrangement of itself sorted by class, everything outside untouched, with the explicit stack never overflowing |
| FallbackQSort.StackNeverFull | todo-later/csrc/libbzip2/blocksort.c:93-180 | the stack of ranges holds fewer than 99 entries for every array of fewer than 2^31 entries, because the larger part is always pushed first |
| FallbackSort.Round | todo-later/csrc/libbzip2/blocksort.c:259-313 | a doubling round takes rows sorted by h bytes, with header bits at exactly the starts of the classes of rows equal in h bytes, to the same for 2 h bytes |
| FallbackSort.FallbackSort | todo-later/csrc/libbzip2/blocksort.c:212-313 | for every non-empty block the map ends as a permutation listing the rotations in non-decreasing order, and the block is restored |
| FallbackSort.FindOrigPtr | todo-later/csrc/libbzip2/blocksort.c:1083-1088 | the search for the row of the block itself always finds one |
| InverseBwt.WalkSpellsBlock | todo-later/csrc/libbzip2/decompress.c:538-576 | following any inverse of the row map from origPtr, the byte that ends the m-th row visited is byte m modulo the length of the block, for every block, periodic ones included |
| InverseBwt.DecodeFast | todo-later/csrc/libbzip2/decompress.c:559-566 | from the last column, true byte counts and origPtr of any block the FAST set-up and vector walk give the block |
| InverseBwt.DecodeSmall | todo-later/csrc/libbzip2/decompress.c:526-547 | the same for the SMALL layout: 20-bit pointers in two packed arrays, the cycle of origPtr reversed in place, bytes found by binary search |
| MoveToFront.DecodeEncode | todo-later/csrc/libbzip2/compress.c:157-230 | decoding, after any symbols and with room for the bytes, turns the encoding of any bytes back into them, runs of any length up to 900000 included |
| MtfEncoder.GenerateMtfValues | todo-later/csrc/libbzip2/compress.c:120-231 | the in-place pass writes exactly the symbols of the encoding, at most one more than there are bytes, and counts how often each occurs |
| MtfStore.Store.Take | todo-later/csrc/libbzip2/decompress.c:419-486 | the two-level store, over every in-place step and every rebuild, behaves as one list whose n-th entry moves to the front |
| MtfDecoder.DecodeValues | todo-later/csrc/libbzip2/decompress.c:358-486 | the decoder's loop yields, named and counted, exactly the bytes the symbols stand for, and an error exactly when they stand for none or for too many |
| BlockCoding.CompressBlock | todo-later/csrc/libbzip2/compress.c:157-169 | for every block of at most 900000 bytes sorting, last column and ranks give a code that stands for the block |
| BlockCoding.DecompressBlock | todo-later/csrc/libbzip2/decompress.c:348-576 | a code that stands for a block is decoded to that block in either layout |
| HuffmanCodes.PrefixFree | todo-later/csrc/libbzip2/huffman.c:152-166 | for any lengths whose code words fit, no assigned code word is a prefix of another |
| HuffmanCodes.KraftFits | todo-later/csrc/libbzip2/huffman.c:152-166 | code words fit their lengths if and only if the Kraft sum is at most one |
| HuffmanCodes.WordDecodes | todo-later/csrc/libbzip2/decompress.c:88-101 | anywhere in a bit stream, the search with limit, base and perm takes exactly a code word's bits and names its symbol |
| HuffmanTables.AssignCodes | todo-later/csrc/libbzip2/huffman.c:152-166 | symbols get the canonical code words in order of length, then index |
| HuffmanTables.CreateDecodeTables | todo-later/csrc/libbzip2/huffman.c:170-205 | limit is the last code word of each length, base the offset from code word to place, perm the symbols by length and index |
| HuffmanCodes.FirstIsZero | todo-later/csrc/libbzip2/huffman.c:152-166 | the first symbol in order of length and index has the code word of all zeros |
| HuffmanCodes.NextIsOneMore | todo-later/csrc/libbzip2/huffman.c:152-166 | the next symbol in that order has the word one more, with zeros up to its own length |
| HuffmanOptimal.TreeOptimal | todo-later/csrc/libbzip2/huffman.c:63-148 | joining the two lightest trees until one is left gives lengths whose cost no lengths with Kraft sum at most one go below |
| HuffmanOptimal.FrequentShorter | todo-later/csrc/libbzip2/huffman.c:63-148 | with lengths of least cost a symbol that occurs more often than another has no longer code |
| HuffmanLengths.MakeCodeLengths | todo-later/csrc/libbzip2/huffman.c:63-148 | for any frequencies of at least two symbols with sum below 2^23 it ends with lengths from 1 to the limit and Kraft sum exactly one, of least cost for the frequencies flattened some number of times, flattened only if before that a code got too long; for the frequencies as they are if their sum is below a Fibonacci number of the limit |
| BitStream.BitWriter.W | todo-later/csrc/libbzip2/compress.c:60-78 | for every buffer state the bits written grow by exactly the n low bits of v, highest first |
| BitStream.BitWriter.Finish | todo-later/csrc/libbzip2/compress.c:46-54 | the bytes hold all bits written, followed by fewer than eight zeros |
| BitStream.BitReader.Get | todo-later/csrc/libbzip2/decompress.c:43-65 | n bits are taken off what is left and read as a number, if and only if there are n, though the 32-bit buffer loses its top bits |
| BitStream.BitReader.GetOverCalls | todo-later/csrc/libbzip2/decompress.c:43-65 | a number whose bits come in over any number of calls, the reader stopping where input runs out, is the number read from the joined input, and as much is left |
| HuffmanCoding.ReadSymbols | todo-later/csrc/libbzip2/decompress.c:74-102 | from the words of any symbols, coded with any choice of table per fifty, the reader takes those symbols up to the end-of-block symbol and leaves what follows |
| HuffmanCoding.ThereAndBack | todo-later/csrc/libbzip2/compress.c:408-598 | for every frequency table, table choice and symbol list the lengths, code words and decoding tables built from the frequencies bring the symbols back |
| BlockStream.SelectorRanks | todo-later/csrc/libbzip2/compress.c:460-477 | the in-place pass over the selectors gives their ranks in a list moved to the front |
| BlockStream.ReceiveBlock | todo-later/csrc/libbzip2/decompress.c:240-486 | the bits of a block, used bytes, selectors, code lengths and symbols, are read back as the code that was sent, and nothing beyond them |
| BlockStream.ThereAndBack | todo-later/csrc/libbzip2/compress.c:602-664 | every block of at most 900000 bytes comes back from the bytes it is sent as, whatever tables are chosen for its symbols, in either layout |
| RunLength.UnpackPacked | todo-later/csrc/libbzip2/bzlib.c:216-247 | unpacking the packed form of any runs gives their text, and no last count is missing |
| RunLengthEncoder.UnpackPackedBlocks | todo-later/csrc/libbzip2/bzlib.c:289-329 | runs do not straddle blocks: each block unpacked by itself gives the whole text |
| RunLengthEncoder.Compressor.HandleCompress | todo-later/csrc/libbzip2/bzlib.c:361-403 | for any input and room, what has been taken, closed and delivered fits together, input is used up or room filled, no block exceeds 100000 blockSize100k - 10 bytes, and every block but those a flush or the end closes, once all its input is taken, has at least nblockMAX |
| RunLengthEncoder.Compressor.Compress | todo-later/csrc/libbzip2/bzlib.c:407-464 | over every sequence of calls the bytes given are a prefix of the code of the blocks, and at a flush or the end all of it, the blocks unpacking to exactly what was taken; the status says whether more room or input is needed, or the call was out of sequence |
| RunLengthDecoder.Expander.UnRleToOutputFast | todo-later/csrc/libbzip2/bzlib.c:591-680 | with any room per call the FAST machine's output is the next part of the block's text; it reports corruption only if a last count is missing |
| RunLengthSmall.SmallExpander.UnRleToOutputSmall | todo-later/csrc/libbzip2/bzlib.c:759-801 | the same for the SMALL machine, whose bytes come from a search of the sorted column |
| BlockText.Restore | todo-later/csrc/libbzip2/bzlib.c:361-403 | once a compressor has flushed or ended, its blocks, each sent, received and expanded with whatever tables and room, are together exactly what it took |
| BzStream.BlockWriter.CompressBlock | todo-later/csrc/libbzip2/compress.c:602-664 | over every sequence of blocks, empty ones included, the bits written are header, magics, check sums and blocks so far, and after the last block the bytes are the whole stream with its trailer |
| BzStream.WriteAll | todo-later/csrc/libbzip2/compress.c:602-664 | any blocks that fit their level, written one after the other with any choice of tables, are a stream of those blocks |
| BzStream.Decompress | todo-later/csrc/libbzip2/bzlib.c:806-860 | a stream of any blocks that states any check sums is accepted if and only if each is that of its block's text and the last their combination, and then gives the text, in either layout and with any room |
| BzStream.Restored | todo-later/csrc/libbzip2/bzlib.c:407-464 | the bytes a compressor has given out when it has ended decompress to exactly what it took over all its calls |
| RangeCoder.RoundTrip | todo-later/lzma/LzmaEnc.c:483-573 | for every model whose requests depend on the bits so far, all start probabilities and all bit lists, the flushed stream starts with 0 and decodes, whatever follows it, to exactly the bits and the encoder's probabilities, ending with code 0 at its last byte |
| RangeCoder.LeadingByteZero | todo-later/lzma/LzmaEnc.c:509-528 | no carry ever reaches the first byte |
| RangeCoder.RangeEnc.ShiftLow | todo-later/lzma/LzmaEnc.c:509-528 | the number represented by bytes, cache and low is multiplied by 256, bytes already written stay, and low becomes what the source computes |
| RangeCoder.RangeEnc.EncodeStream | todo-later/lzma/LzmaEnc.c:530-573 | with carries resolved through any run of 0xFF the bytes written are those of the interval coder, and probabilities move with it |
| LzmaStrokes.MatchedWalk | todo-later/lzma/LzmaEnc.c:588-601 | a literal after a match is read under the match byte's bits as long as they agree with its own, and as a plain one from the first that does not |
| LzmaStrokes.PacketWalk | todo-later/lzma/LzmaEnc.c:1733-1893 | the bits written for any packet, under the tables they are written with, are walked by the decoder to exactly that packet |
| LzmaRoundTrip.ThereAndBack | todo-later/lzma/LzmaEnc.c:1733-1893 | for every text and packets that make it, whatever follows the coded bytes, the decoder gives the text, uses exactly those bytes and may have finished |
| LzmaRoundTrip.ThereAndBackMarked | todo-later/lzma/LzmaEnc.c:1597-1632 | the same with the end mark and any larger limit: the decoder has finished with the mark |
| LzmaSlots.FastPosInit | todo-later/lzma/LzmaEnc.c:107-121 | the table gives the slot of every distance below its size |
| LzmaSlots.GetPosSlot | todo-later/lzma/LzmaEnc.c:123-133 | three ranges of the table give the slot of every distance below 2^31 |
| LzmaEncoder.LzmaEnc.Encode | todo-later/lzma/LzmaEnc.c:1733-1893 | coding packet after packet on the encoder's tables and state writes the strokes of those packets |
| LzmaText.CodeAndDecode | todo-later/lzma/LzmaEnc.c:1733-1893 | for every text and every packets that make it, what the encoder writes, cut anywhere, is decoded to the text |
| LzmaText.CodeAndDecodeMarked | todo-later/lzma/LzmaEnc.c:1597-1632 | the same with the end mark: the decoder finds the end by itself |
| LzmaInputBound.TwentyBytes | todo-later/lzma/LzmaDec.h:45-48 | decoding one symbol from a normalised state reads at most 20 bytes |
| LzmaInputBound.TwentyEnough | todo-later/lzma/LzmaDec.c:768-788 | with 20 bytes at hand a symbol never runs out of input |
| LzmaSymbol.DummyAgrees | todo-later/lzma/LzmaDec.c:487-675 | without adapting probabilities the trial runs out of input exactly when the real walk does, and ends at the same place with the same kind of symbol |
| LzmaDummy.TryDummy | todo-later/lzma/LzmaDec.c:487-675 | the trial returns none exactly when the real decoder would run out of input, and otherwise the kind of symbol it would read |
| LzmaReal.Reader.GetDistance | todo-later/lzma/LzmaDec.c:296-375 | with probabilities adapted in place the slot, direct, reverse-tree and align bits give the distance of the walk |
| LzmaDict.CopyMatch | todo-later/lzma/LzmaDec.c:392-420 | copying in the cyclic dictionary, overlapping or round its end, appends n bytes each repeated from the same distance back |
| LzmaWork.Work.One | todo-later/lzma/LzmaDec.c:152-420 | one turn of the real loop does to probabilities, state, distances, dictionary and output what the symbol means, and refuses exactly what the meaning refuses |
| LzmaDecoder.LzmaDec.DecodeReal | todo-later/lzma/LzmaDec.c:131-426 | the loop, with its last normalisation and the fields stored, leads to the same future as the symbols read one by one, and reports an error only if reading them one by one is an error |
| LzmaDecoder.LzmaDec.WriteRem | todo-later/lzma/LzmaDec.c:428-452 | as much of a match as fits below the limit is written, and the state it stands for stays the same |
| LzmaDecoder.LzmaDec.DecodeToDic | todo-later/lzma/LzmaDec.c:719-838 | after any earlier calls, with any limit at or beyond what is written and either finish mode, a call returns and leaves what decoding all input so far at once up to that limit gives: same bytes, status, use of input, or error |
| LzmaDecoder.LzmaDec.DecodeToBuf | todo-later/lzma/LzmaDec.c:840-878 | the same for a caller's buffer of any size, through a dictionary that is filled again and again with limits that move |
| LzmaDecoder.SameVerdict | todo-later/lzma/LzmaDec.c:783-803 | a limit that was not met, where the stream need not end, gives the verdict of any farther limit |
| LzmaStream.Rebase | todo-later/lzma/LzmaDec.c:725-803 | unless the stream has ended, moving the limit leaves a decoder where one that had the new limit from the start would be |
| LzmaSlices.InPieces | todo-later/lzma/LzmaDec.c:719-878 | however a stream is cut into pieces, what is not used being offered again, the output, status and use of input, or the error, are those of the joined input |
| MatchFinder.GetMatchesSpec1 | todo-later/lzma/LzFind.c:353-406 | on any search tree over a cyclic window every match reported is a true one inside the window, lengths strictly rise, and the window's strings end as a search tree rooted at the new position |
| MatchFinder.SkipMatchesSpec | todo-later/lzma/LzFind.c:408-456 | skipping rebuilds the tree exactly as a search with no limit to beat does |
| MatchFinder.WalkLeaves | todo-later/lzma/LzFind.c:408-456 | what a walk leaves does not depend on the length to beat |
| MatchFinder.WalkFinds | todo-later/lzma/LzFind.c:353-406 | the walk keeps the tree torn into smaller and larger strings and reports only true matches of rising length |
| MatchFinder.Normalize3 | todo-later/lzma/LzFind.c:290-302 | every reference falls by the same number, down to empty |
| MatchLongest.NoneLonger | todo-later/lzma/LzFind.c:353-406 | unless the walk is cut short, no position of the tree agrees longer with the current one than the last match reported |
| MatchRuns.RunsReportTrueMatches | todo-later/lzma/LzFind.c:353-456 | over any run of searches and skips every report is made of true matches in the window of its time |
| MatchRuns.ShiftChangesNoReport | todo-later/lzma/LzFind.c:285-320 | normalising at any moment changes no later report |
| SuffixSplit.Split | todo-later/csrc/bsdiff/bsdiff.c:43-102 | splitting a group keeps, at every moment of its round, ranks that refine the order by h bytes, runs of finished places marked, and all reads in range |
| SuffixSort.QSufSort | todo-later/csrc/bsdiff/bsdiff.c:104-140 | for every byte string it ends with all suffixes, the empty one included, in strictly increasing order |
| Offsets.ReadWritten | todo-later/csrc/bsdiff/bsdiff.c:178-194 | every number between -2^63 and 2^63 is read back from its eight bytes |
| Offsets.OffIn | todo-later/csrc/bsdiff/bspatch.c:39-55 | the byte-by-byte reader computes that reading for every eight bytes |
| BsDiff.Search | todo-later/csrc/bsdiff/bsdiff.c:152-176 | the binary search returns the match that halving by first differences finds, a true one that cannot be made longer; over a suffix array, if no rest of old is a proper prefix of the text, none in old is longer |
| BsDiff.FoundLongest | todo-later/csrc/bsdiff/bsdiff.c:152-176 | that longest match, for every old and new |
| BsDiff.SearchMisses | todo-later/csrc/bsdiff/bsdiff.c:152-176 | the condition is needed: in "aa" the search finds only one byte of "aa" |
| BsDiff.ScanAhead | todo-later/csrc/bsdiff/bsdiff.c:279-304 | the scan ends at the first place whose match agrees in length with the bytes that the old offset gets right, or beats them by more than eight, and with exactly that count |
| BsDiff.MadeWhole | todo-later/csrc/bsdiff/bsdiff.c:276-357 | triples that tile new patch old to new |
| BsDiff.Diff | todo-later/csrc/bsdiff/bsdiff.c:276-357 | for every two byte strings patching old with what is emitted gives new, and the triples are those of the turns: stops of the scan, stretches that gain most, cuts that keep most |
| BsPatch.Patch | todo-later/csrc/bsdiff/bspatch.c:143-186 | for any control, diff and extra bytes the loop rejects exactly what the definition of patching rejects and otherwise writes its result |
| X86Filter.FilterBack | todo-later/lzma/Bra86.c:11-85 | for every buffer, address and carried mask, filtering in one direction and then in the other gives the buffer back |
| X86Filter.TwoCalls | todo-later/lzma/Bra86.c:11-85 | filtering in two calls with the carried state equals filtering once |
| X86Branches.BranchMoves | todo-later/lzma/Bra86.c:11-85 | with mask 0, after e8 or e9 with four more bytes, the last 00 or ff, the 25-bit word becomes itself plus or minus the place behind it, sign-extended, and the filter goes on there |
| X86Branches.GuardedMoves | todo-later/lzma/Bra86.c:11-85 | the same for masks 1, 2 and 4, if the byte each protects is neither 00 nor ff, turned on until it is again |
| X86Branches.Passes | todo-later/lzma/Bra86.c:11-85 | any other byte is left and goes into the mask exactly if it is e8 or e9 |
| X86Branches.NothingToMove | todo-later/lzma/Bra86.c:11-85 | if no byte that can start a branch is e8 or e9 nothing changes |
| X86Branches.AllCases | todo-later/lzma/Bra86.c:11-85 | a byte that is not left alone is e8 or e9 before an edge byte, with mask 0 or with its protected byte off the edges |
| X86Filter.X86Convert | todo-later/lzma/Bra86.c:11-85 | the in-place loop with its mask bits computes that filter, place and state included |
| CoderRing.OneAtATime | todo-later/lzma/MtCoder.c:187-222 | never do two threads read, nor two write |
| CoderRing.NoDeadlock | todo-later/lzma/MtCoder.c:187-247 | while a thread is not done some thread can move |
| CoderRing.AllWritten | todo-later/lzma/MtCoder.c:187-247 | if nothing failed and all are done every block has been written, in order |
| CoderRing.RingWorks | todo-later/lzma/MtCoder.c:187-247 | in every run, failures included, blocks are written in input order; runs are bounded; a run that cannot go on has all threads done, and has written all blocks if nothing failed |
| CoderStart.StartStops | todo-later/lzma/MtCoder.c:303-322 | if any thread cannot be started, in every run nothing is read or written, and a run, of at most four steps a thread, can only stop when all started threads have gone home |
| BlockQueue.HeldSafe | todo-later/lzma/LzFindMt.c:21-47 | the block a consumer holds is the one it took last, and no step of the producer writes over it |
| BlockQueue.StoppedClean | todo-later/lzma/LzFindMt.c:49-70 | after stopping, all slots are free, none filled, the lock is open and the producer waits to be started |
| BlockQueue.CallGoesOn | todo-later/lzma/LzFindMt.c:21-70 | while a call of the consumer is under way the consumer or the producer can move |
| BlockQueue.QueueWorks | todo-later/lzma/LzFindMt.c:21-70 | in every run blocks arrive in order and both semaphores stay between 0 and the number of slots |
| QueueChain.MovesAlone | todo-later/lzma/LzFindMt.c:166-184 | while the hash thread, with both locks, moves the window, neither the binary-tree thread nor the encoder works with it |
| QueueChain.ChainGoesOn | todo-later/lzma/LzFindMt.c:385-429 | while a call of the encoder is under way one of the three threads can move: nested locks and chained waits never block each other |
| QueueChain.ChainStopped | todo-later/lzma/LzFindMt.c:405-429 | after the encoder has stopped its queue both queues are empty, both threads wait to be started and no lock is held |
| QueueChain.ChainWorks | todo-later/lzma/LzFindMt.c:148-216 | in every run of the three threads the blocks of both queues come in order, semaphores stay in range, the window moves under nobody and no call of the encoder is stuck |
| PpmdHeap.NoneLost | todo-later/lzma/Ppmd7.c:118-275 | every unit outside the gap and above the text belongs to a block that is in use or in the list of its size |
| PpmdHeap.Apart | todo-later/lzma/Ppmd7.c:118-275 | a unit belongs to one block only |
| PpmdHeap.OneHome | todo-later/lzma/Ppmd7.c:118-141 | a block stands at one place of one list only |
| PpmdAllocator.Allocator.RestartModel | todo-later/lzma/Ppmd7.c:285-305 | a restarted heap, seven eighths of the memory, is sound, whatever it held before, and only the root context and its table of statistics are in use |
| PpmdAllocator.Allocator.AllocUnits | todo-later/lzma/Ppmd7.c:241-254 | over every run: a block of the size asked for that nobody had, the first of its list or else the gap's lowest, or 0 only with nothing left, and what users wrote stays |
| PpmdAllocator.Allocator.AllocUnitsRare | todo-later/lzma/Ppmd7.c:215-239 | a block cut from the first of the least larger list, or from below; when gluing is due, 0 only after all free neighbours were joined |
| PpmdAllocator.Allocator.AllocContext | todo-later/lzma/Ppmd7.c:392-402 | a unit from the gap's upper end, or else the first of the list of single units, or else as above |
| PpmdAllocator.Allocator.ShrinkUnits | todo-later/lzma/Ppmd7.c:260-275 | the block shrinks in place or moves, its first units kept, all other blocks and their contents untouched |
| PpmdAllocator.Allocator.GlueFreeBlocks | todo-later/lzma/Ppmd7.c:143-213 | free neighbours are joined until none can grow, or would be too large for 16 bits, and each is returned in blocks of 128 units and one or two for the rest; users' blocks and contents stay |
| Dasm.Assembler.Put | move-to-submodules/c/dynasm/dasm_x86.h:167-269 | for any action string and arguments, exactly the planned entries, estimates and label events are stored, chains included, and the status stays good if and only if immediates are in range, labels in their tables, local labels looked for behind are there, and the section exists; a bad status names the kind of the action it points behind |
| Dasm.Assembler.Collapse | move-to-submodules/c/dynasm/dasm_x86.h:246-251 | walking a chain, across sections, gives the label's position to exactly the references that wait for it |
| DasmLabels.ValueMeans | move-to-submodules/c/dynasm/dasm_x86.h:217-251 | a reference that does not wait holds the position of the label it means: the last before it, or, looking ahead or with none before, the first after it |
| Dasm.Assembler.CheckStep | move-to-submodules/c/dynasm/dasm_x86.h:482-496 | the step check fails exactly if a local label is waited for or the section differs, and forgets local labels; the status names the first local label waited for, or the section that is current |
| DasmLayout.ShortFits | move-to-submodules/c/dynasm/dasm_x86.h:311-331 | a branch made short reaches its label with a signed byte, although branches and alignment between them still change size |
| DasmLayout.BackExact | move-to-submodules/c/dynasm/dasm_x86.h:311-331 | a branch back is made short, e9 by three bytes and 0f 80 to 0f 8f by four, exactly when a signed byte reaches its label; no other is |
| DasmLayout.AheadExact | move-to-submodules/c/dynasm/dasm_x86.h:311-331 | a branch ahead exactly when one reaches its label with everything between at its longest |
| DasmLayout.Aligned | move-to-submodules/c/dynasm/dasm_x86.h:338-338 | after alignment the final offset is the next multiple, reached with the fewest bytes |
| Dasm.Assembler.Link | move-to-submodules/c/dynasm/dasm_x86.h:273-353 | with no local label waited for, linking fails exactly for an undefined PC label; else every label, branch and alignment of every section is fixed at its final offset, undefined globals are marked, and `codesize` is the final size |
| Dasm.Assembler.Encode | move-to-submodules/c/dynasm/dasm_x86.h:367-466 | after linking exactly `codesize` bytes are written, those of the code and none behind, there is never a phase error, and globals get their final addresses |
| DasmCode.Lands | move-to-submodules/c/dynasm/dasm_x86.h:425-431 | read in the final code, a branch, short or long, ends at its final offset and goes to its label's |
| DasmCode.LandsOutside | move-to-submodules/c/dynasm/dasm_x86.h:422-424 | a branch to a global of other code is long and arrives at its address modulo 2^32 |
| DasmPlan.ReferenceNames | move-to-submodules/c/dynasm/dasm_x86.h:217-236 | which label, local, global or PC, behind or ahead, the byte or argument of a reference action names |
| DasmCode.ImmediateReads | move-to-submodules/c/dynasm/dasm_x86.h:198-203 | an immediate is in range exactly if its bytes, read as the action says, give it back |
| DasmCode.OwnStands | move-to-submodules/c/dynasm/dasm_x86.h:367-459 | immediates, addresses, space and padding stand in the code at the final offsets of their entries |
| DasmCode.TailStands | move-to-submodules/c/dynasm/dasm_x86.h:367-459 | plain bytes stand before the next entry, but for the opcode of a branch made short |
| Dasm.Assembler.Arrives | move-to-submodules/c/dynasm/dasm_x86.h:273-466 | through all three passes, in the final code every branch arrives at the label it means in the order of the calls |
| Dasm.Assembler.GlobalKnown | move-to-submodules/c/dynasm/dasm_x86.h:443-448 | a global label that is defined once, in any section, is made known to the caller at its final address |
| DasmCode.PublishedIs | move-to-submodules/c/dynasm/dasm_x86.h:443-448 | what is made known of a global is the final address of its last definition in the code, and what the caller had where there is none |
| Dasm.Assembler.GetPcLabel | move-to-submodules/c/dynasm/dasm_x86.h:469-478 | after linking the offset of a PC label is the final offset of its last definition |
| EarcutOrder.ZOrderIs | three_earcut.js:546-564 | the bits of both scaled coordinates take turns, the first one's at the even places |
| EarcutOrder.ZOrderRises | three_earcut.js:546-564 | the order grows with either coordinate, though coordinates are scaled with rounding |
| EarcutOrder.SpreadIsSpaced | three_earcut.js:552-560 | the four mask steps put bit i of a 15-bit number at place 2 i |
| EarcutSort.SortLinked | three_earcut.js:481-544 | the in-place merge sort leaves a permutation of the list sorted by order, links in both directions consistent |
| Earcut.InBox | three_earcut.js:583-589 | for coordinates on one 25-bit grid a point that passes the triangle test is in the triangle's box |
| EarcutTriangle.InsideIsMixed | three_earcut.js:583-589 | on one 25-bit grid, in a clockwise triangle, a point passes the triangle test if and only if it is a mean of the corners with weights that are not negative, border included |
| EarcutTriangle.EarMeans | three_earcut.js:176-197 | there a vertex is an ear if and only if the ring turns left at it and at every other vertex, but its neighbours, that is such a mean of the three |
| Earcut.IsEar | three_earcut.js:176-197 | true exactly when the vertex is convex and no reflex or straight vertex of the ring passes the triangle test |
| Earcut.IsEarHashed | three_earcut.js:199-257 | for all coordinates: true exactly when the vertex is convex and no such vertex with an order between those of the box's corners passes the test |
| Earcut.SameTip | three_earcut.js:199-257 | for coordinates on one 25-bit grid of any scale both tests agree |
| Earcut.RemoveNode | three_earcut.js:740-748 | ring and list lose the same node and stay linked |
| Earcut.SliceEars | three_earcut.js:116-145 | the loop cuts off, in order, the ears of the plain test, with or without the index |
| Earcut.FirstPass | three_earcut.js:109-145 | after indexing, from any ring, the first pass cuts off exactly the ears of the plain test on coordinates of one 25-bit grid |
| EarcutRounding.FindBox | three_earcut.js:20-48 | the box has the least coordinates and the rounded inverse of the larger side; points on one 25-bit grid are inside it |
| EarcutRounding.IndexHides | three_earcut.js:199-257 | rings of any number of points from five on, in the box found for them, on which the indexed test says ear and the plain test does not |

## Left out

- QueueChain.ChainWorks: ending the threads (`MtSync_Destruct`) is not modelled, nor that the scheduler lets every thread have its turn.
- BzStream.Decompress: the input is a whole stream of blocks with any check sums; the return codes for other damage, and input in pieces, are left out.
- BitStream.BitReader.GetOverCalls: one number; the block decoder's saved variables, with which it goes on after a number, are not modelled, and it is given whole blocks.
- InverseBwt.DecodeFast: true byte counts are demanded, as `MtfDecoder.DecodeValues` leaves them; the data errors of damaged counts are left out.
- BlockStream.ThereAndBack: how tables and selectors are chosen (the cost heuristics of `sendMTFValues`) is a parameter; the rest of a stream around the block is in `BzStream`.
- HuffmanLengths.MakeCodeLengths: requires a frequency sum below 2^23, as the source's 24-bit weight field does.
- LzmaDecoder.LzmaDec.DecodeToDic: requires a limit that is not behind the place of the next byte; re-initialisation that keeps the dictionary or the probabilities is not modelled, nor are 32-bit wrap-around of the running position and the status at an error.
- BsDiff.Diff: requires lengths below 2^63, the range of the numbers in a patch.
- LzmaEncoder.LzmaEnc.Encode: requires a dictionary of at most 2^30 bytes, as the source's check of properties does, and distances below 2^32; header bytes and the output buffer's limits are left out.
- EarcutOrder.ZOrderRises: infinities, NaN, subnormal numbers and the sign of zero are not modelled.
- Earcut.SliceEars: the first pass only; filtering, curing and splitting, bridging of holes and ring construction are left out.
- PpmdAllocator.Allocator.AllocUnits: requires that blocks in use begin with a non-zero stamp, as the source does; the model of symbols above the heap and the 32-bit layout of nodes are left out.
- Dasm.Assembler.Put: the actions DISP, VREG, MARK, IMM_DB, IMM_WB, SETLABEL, REL_A and EXTERN are left out, as are 32-bit wrap-around of offsets, growth of the buffers and calls after one that failed; it requires that a section keeps below 2^24 entries.
- Dasm.Assembler.Arrives: requires code below 2^31 bytes, as 32-bit displacements do.
- MatchFinder.GetMatchesSpec1: hash tables, window moves and limits around it (`MatchFinder_CheckLimits`) are left out.
- RangeCoder.RangeEnc.EncodeStream: the output buffer and its flush to a stream are a sequence of bytes.
- `mainSort`, the alternative sorter for large blocks, which may give up and leave the work to the modelled one.
- Randomised blocks of old bzip2 streams.
- The storage that `eclass`, `mtfv` and the row pointers share in the source; here they are separate arrays.
- Header bits packed in words: here one boolean each, still scanned word by word.
- LZMA's choice of packets (`GetOptimum`, price tables), property bytes and memory allocation.
- Reading and writing files, the bzip2 wrapping of bsdiff patches, and creation of threads, events and semaphores.
