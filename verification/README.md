# Verified models of the kernel's codec, memory and text logic

Dafny models of the hard algorithms of the kernel, with proofs that hold for all inputs and all runs.

**DEFLATE and PNG** (`kernel/arch/x86_64/GUI/lodepng.c`). The whole path of `deflate` and `inflate` is modelled: LZ77
with hash chains (`Lz77`, `Lz77Encoder`), canonical Huffman codes and the two-level table (`Huffman`, `HuffmanTable`,
`HuffmanLookup`, `HuffmanTree`), code lengths by boundary package-merge (`LeafSort`, `PackageLists`, `CodeCost`,
`PackageMerge`), bit readers and writers (`BitSequence`, `BitIo`), blocks and streams in both directions
(`HuffmanBlock`, `CodeLengths`, `DynamicHeader`, `InflateBlock`, `InflateDynamic`, `InflateStream`, `DeflateBlock`,
`DeflateDynamic`, `DeflateStream`), the zlib container and its checksum (`Zlib`, `Adler32`), the chunk checksum
(`Crc32`, `Crc32Literals`, `Crc32Table`, `Crc32Laws`), scanline filters (`Filters`, `FilterLoops`, `FilterImage`) and interlacing
(`Adam7`, `Adam7Tables`, `Adam7Loops`). The main result is that inflating what was deflated gives back the input,
through the actual bit stream and for every setting (`DeflateStream.DeflateThenInflate`,
`Zlib.CompressThenDecompress`); that inflating any stream at all succeeds exactly when it is well-formed; and that the
code lengths chosen for a block are the best ones within their maximum. Round trips hold of any pair that agrees, so the
format itself is stated apart: the code tables, alphabets and headers of RFC 1951 as ranges and closed forms
(`DeflateFormat`), and likewise the header and checksum of RFC 1950, the chunk checksum, the filter equations and the
interlacing pattern of RFC 2083.

**Memory** (`kernel/arch/x86_64/memory`). The boundary-tag heap (`HeapModel`, `HeapBins`, `HeapGeometry`, `HeapSteps`,
`Heap`) keeps one invariant over every run of `malloc`, `free` and `realloc`: chunks are partitioned by their tags, bins are
well-formed, no two neighbours are free, live payloads are disjoint. The frame bitmap (`Bitmap`) searches first-fit from a
hint; the page mapper (`PageTables`, `PageSteps`, `Paging`) builds four-level tables in frames of that bitmap.

**Text editor** (`kernel/arch/x86_64/GUI/text_editor.cpp`). The line-array editor refines a flat text with a cursor
(`FlatText`, `Editor`, `EditorMoves`, `Clipboard`).

**Arithmetic.** Bresenham's line (`Line`) and the clock-to-Unix conversion (`Clock`). `Arithmetic`, `ByteBits` and `Wrappers`
hold what several of the modules share.

Code that changes buffers, arrays or object fields is modelled by methods and classes whose contracts tie the new state to
functions of the old one; what the code promises is then proved about those functions. Addresses of the heap are physical
offsets below 4 GiB, as the pointer arithmetic of the allocator assumes. The page allocator, the start of the frame bitmap
and the boot loader's page tables are parameters. C strings are the characters before their terminator. Where the kernel
halts, the model returns a failure.

Where the code does not do what its comments or its purpose suggest, the model follows the code and the difference is proved:

- `searchCodeIndex` is documented to return the array size when nothing is small enough; it returns 0 (`Lz77.SearchCodeIndex`).
- `deflate` of empty data divides by zero for block type 1 and writes an empty, uninflatable stream for type 0 (`DeflateStream.Deflate`).
- `malloc` of sizes near or above 4 GiB obtains too little memory (`Heap.ObtainedIsEnough`), and `realloc` copies a wrong amount from 2 GiB on (`Heap.CopyCountIsMinimum`).
- Marking an unaligned region marks too few blocks used or too many free (`Bitmap.UsedRegionIsCovered`, `Bitmap.FreedRegionIsInside`), and an exhausted frame bitmap hands out an address below its start (`Bitmap.Bitmap.AllocatePageframe`).
- Overwriting a mapping frees its frame even if it is mapped elsewhere (`PageSteps.SharedFrameIsFreed`, `PageSteps.SetKeepsOwned`), and even if the frame bitmap has no bit for it, which writes outside the bitmap (`Paging.OverwriteLeavesBitmap`, `Paging.DeviceRemapLeavesBitmap`).
- Backspace refuses to join two lines that would fill a line exactly (`Editor.JoinLimit`).
- The interlacing tables are computed in 32 bits although the decoder's own size check is not. For images of half a gigabyte or more the sizes can disagree, passes overlap or rows be read twice (`Adam7Tables.ExpectedSizeIsTable`, `Adam7Loops.AddressesIff`, with inputs in `Adam7Tables.WideImageWraps`, `Adam7Loops.SquareImageOverlaps` and `Adam7Loops.TallImageRepeats`).
- A page cannot be mapped while frame 0 is free and a table is missing, because its address means failure (`Paging.Pager.MapPage`).

## Model

| member | source | states |
|---|---|---|
| `Lz77.SearchCodeIndex` | kernel/arch/x86_64/GUI/lodepng.c:1425-1437 | on any strictly increasing table the binary search returns the last entry not above the value, and 0 when every entry is above it |
| `DeflateFormat.LengthCodes` | kernel/arch/x86_64/GUI/lodepng.c:580-588 | RFC 1951 section 3.2.5 in closed form: four length codes for each number of extra bits, every base the previous one plus 2 to its extra bits, from 3 on; code 28 is 258 alone |
| `DeflateFormat.DistanceCodes` | kernel/arch/x86_64/GUI/lodepng.c:590-598 | RFC 1951 section 3.2.5 in closed form: two distance codes for each number of extra bits, every base the previous one plus 2 to its extra bits, from 1 on |
| `Lz77.LengthDistanceToken` | kernel/arch/x86_64/GUI/lodepng.c:1439-1460 | the token built for any length 3 to 258 and distance 1 to 32768 decodes to exactly that length and distance, with extra bits in range |
| `Lz77.TokenRange` | kernel/arch/x86_64/GUI/lodepng.c:1439-1460 | every valid token stands for a length 3 to 258 and a distance 1 to 32768 |
| `Lz77.CopyBackOfMatch` | kernel/arch/x86_64/GUI/lodepng.c:1283-1298 | copying back byte by byte over a match reproduces the matched bytes, overlapping copies included |
| `DeflateFormat.BackReference` | kernel/arch/x86_64/GUI/lodepng.c:1283-1298 | a copy keeps the output so far, and every byte it adds equals the one a distance before it |
| `DeflateFormat.SymbolRanges` | kernel/arch/x86_64/GUI/lodepng.c:571-574 | literals are entries below 256, copies start with a symbol 257 to 285, distance symbols are at most 29 |
| `Lz77.AppendToken` | kernel/arch/x86_64/GUI/lodepng.c:1688-1697 | a token added at the end acts on what the earlier tokens expand to |
| `Lz77Encoder.SlotPosition` | kernel/arch/x86_64/GUI/lodepng.c:1593-1594 | going back by a slot's distance from any position lands on a position that has that slot of the circular window |
| `Lz77Encoder.CountZeros` | kernel/arch/x86_64/GUI/lodepng.c:1536-1544 | the count is exactly the run of zeros at the position, cut at 258 and at the end of the data |
| `Lz77Encoder.Hash.Update` | kernel/arch/x86_64/GUI/lodepng.c:1547-1555 | recording a position leaves a hash whose slots all hold sound values for the positions visited so far |
| `Lz77Encoder.FindMatch` | kernel/arch/x86_64/GUI/lodepng.c:1612-1662 | whatever stale or circular chain is followed, a reported match is a real match inside the window, including matches skipped over as runs of zeros |
| `Lz77Encoder.NextZeros` | kernel/arch/x86_64/GUI/lodepng.c:1599-1604 | the carried run-of-zeros count never exceeds the real run |
| `Lz77Encoder.ResolveLazy` | kernel/arch/x86_64/GUI/lodepng.c:1671-1685 | a lazy step back by one byte keeps the emitted tokens equal to the bytes consumed |
| `Lz77Encoder.SkipMatch` | kernel/arch/x86_64/GUI/lodepng.c:1698-1709 | after the positions inside a match the hash is sound for all of them and the carried count of zeros is still no more than the real run |
| `Lz77Encoder.EncodeRange` | kernel/arch/x86_64/GUI/lodepng.c:1593-1710 | the tokens emitted so far always expand to the bytes passed so far |
| `Lz77Encoder.EncodeLz77` | kernel/arch/x86_64/GUI/lodepng.c:1566-1713 | for every range, window size and match setting the emitted symbols expand to exactly the input bytes; error 60 or 90 exactly for a bad window size, and the encoder's internal errors never occur |
| `Lz77Encoder.WindowSizes` | kernel/arch/x86_64/GUI/lodepng.c:1588-1589 | the window sizes accepted are exactly 2^0 to 2^15; error 60 exactly for 0 and for more than 32768 |
| `Huffman.BaseIsFirstCode` | kernel/arch/x86_64/GUI/lodepng.c:764-791 | the first code of a length is the share of the code space used by shorter codes |
| `Huffman.KraftSumIsBase` | kernel/arch/x86_64/GUI/lodepng.c:764-791 | the Kraft sum is the end of the code space handed out |
| `Huffman.CodeFits` | kernel/arch/x86_64/GUI/lodepng.c:764-791 | whenever the lengths do not oversubscribe the code space, every canonical code fits its length |
| `Huffman.CanonicalOrder` | kernel/arch/x86_64/GUI/lodepng.c:764-791 | RFC 1951 section 3.2.2: codes of one length increase with the symbol, every shorter code lies before all longer ones in the code space, and the first code is all zeros |
| `Huffman.PrefixFree` | kernel/arch/x86_64/GUI/lodepng.c:764-791 | whenever the lengths do not oversubscribe the code space, two codewords that start the same bit string are the same symbol's |
| `Huffman.EveryStringIsCovered` | kernel/arch/x86_64/GUI/lodepng.c:643-757 | under Kraft equality every long enough bit string starts with some symbol's codeword |
| `Huffman.OneSymbolCovers` | kernel/arch/x86_64/GUI/lodepng.c:643-757 | a code value lies in exactly one symbol's slice of the code space |
| `Huffman.UsableFits` | kernel/arch/x86_64/GUI/lodepng.c:730-757 | a complete list, or one with fewer than two symbols, does not oversubscribe the code space |
| `Huffman.TwoZeroCodewords` | kernel/arch/x86_64/GUI/lodepng.c:764-791 | an oversubscribed list has two different symbols whose codewords, reduced to their lengths, are all zeros, and one of them is short |
| `Huffman.NoOnes` | kernel/arch/x86_64/GUI/lodepng.c:764-791 | in an incomplete list no codeword is all ones |
| `HuffmanTable.ReverseBits` | kernel/arch/x86_64/GUI/lodepng.c:560-565 | the result's bits are the argument's in reverse order |
| `HuffmanTable.NextCodes` | kernel/arch/x86_64/GUI/lodepng.c:775-782 | the next-code counters start at the first code of each length, shifted by the count of zero lengths |
| `HuffmanTable.MakeCodes` | kernel/arch/x86_64/GUI/lodepng.c:764-791 | every symbol's code is the canonical one of RFC 1951 section 3.2.2 reduced to its length, although lengths of zero are counted too |
| `HuffmanTable.ComputeMaxLens` | kernel/arch/x86_64/GUI/lodepng.c:650-660 | for each 9-bit prefix the longest code that starts with it |
| `HuffmanTable.CoversOnce` | kernel/arch/x86_64/GUI/lodepng.c:676-728 | no table entry belongs to two symbols of a list that does not oversubscribe the code space |
| `HuffmanTable.EveryEntryIsCovered` | kernel/arch/x86_64/GUI/lodepng.c:746-757 | under Kraft equality every table entry belongs to a symbol or is a pointer |
| `HuffmanLookup.LookupFinds` | kernel/arch/x86_64/GUI/lodepng.c:1052-1065 | one or two lookups on bits that start with a symbol's codeword give that symbol and its length |
| `HuffmanLookup.LookupInvalid` | kernel/arch/x86_64/GUI/lodepng.c:730-744 | on bits that start with no codeword they give the invalid symbol |
| `HuffmanLookup.OversubscribedCollides` | kernel/arch/x86_64/GUI/lodepng.c:676-696 | if no short code met a taken entry, the list does not oversubscribe the code space |
| `HuffmanLookup.IncompleteHasGap` | kernel/arch/x86_64/GUI/lodepng.c:746-754 | an incomplete list leaves an entry unused |
| `HuffmanLookup.MakeTable` | kernel/arch/x86_64/GUI/lodepng.c:643-757 | for every list of up to 288 lengths up to 15, through the code's own exits: success if and only if the list is complete or has fewer than two symbols, else 55; on success the table fits 16-bit pointers and decodes every symbol on every continuation of its codeword and everything else to the invalid symbol |
| `HuffmanTree.MakeFromLengths` | kernel/arch/x86_64/GUI/lodepng.c:805-814 | for every list of lengths: codes and table that decode each other's output if and only if the list is complete or has fewer than two symbols, else 55 |
| `HuffmanTree.FixedCodesAreComplete` | kernel/arch/x86_64/GUI/lodepng.c:1016-1045 | both fixed length lists meet Kraft equality |
| `HuffmanTree.GenerateFixedLitLenTree` | kernel/arch/x86_64/GUI/lodepng.c:1016-1031 | a tree ready to decode, of the fixed lengths, whose codes FixedLitLenCodes gives |
| `DeflateFormat.FixedLitLenCodes` | kernel/arch/x86_64/GUI/lodepng.c:1021-1024 | the codes computed from the fixed lengths are those of the table in RFC 1951 section 3.2.6: from 00110000 in 8 bits for 0 to 143, from 110010000 in 9 bits for 144 to 255, from 0000000 in 7 bits for 256 to 279, from 11000000 in 8 bits for 280 to 287 |
| `DeflateFormat.FixedDistanceCodes` | kernel/arch/x86_64/GUI/lodepng.c:1034-1045 | the fixed distance codes are the symbols themselves in five bits |
| `HuffmanTree.GenerateFixedDistanceTree` | kernel/arch/x86_64/GUI/lodepng.c:1034-1045 | the fixed distance tree, ready to decode |
| `HuffmanTree.DecodeSymbol` | kernel/arch/x86_64/GUI/lodepng.c:1052-1065 | returns the symbol whose codeword the stream continues with and moves by exactly its length, or the invalid symbol if there is none |
| `HuffmanTree.CompleteSymbol` | kernel/arch/x86_64/GUI/lodepng.c:1052-1065 | under a complete list every position of every stream has a symbol |
| `BitIo.BitWriter.WriteBit` | kernel/arch/x86_64/GUI/lodepng.c:404-412 | one bit is appended to the bits written |
| `BitIo.BitWriter.WriteBits` | kernel/arch/x86_64/GUI/lodepng.c:415-425 | the lowest bits of the value are appended, lowest first |
| `BitIo.BitWriter.WriteBitsReversed` | kernel/arch/x86_64/GUI/lodepng.c:428-434 | the lowest bits of the value are appended, highest first |
| `BitIo.BitReader.EnsureBytes` | kernel/arch/x86_64/GUI/lodepng.c:471-518 | the buffer holds the next bits of the stream, zeros past its end |
| `BitIo.BitReader.Ensure32` | kernel/arch/x86_64/GUI/lodepng.c:521-538 | the buffer holds the next 32 bits, from five bytes |
| `BitIo.BitReader.ReadBits` | kernel/arch/x86_64/GUI/lodepng.c:541-557 | the value of the next bits, which are consumed |
| `HuffmanBlock.ReadToken` | kernel/arch/x86_64/GUI/lodepng.c:1217-1298 | reading a written token gives the token back and stops right after it |
| `HuffmanBlock.InflateOfTokens` | kernel/arch/x86_64/GUI/lodepng.c:1217-1323 | decoding the bits of a token list and an end code gives the expansion of the tokens and stops right after the end code |
| `DeflateFormat.Alphabet` | kernel/arch/x86_64/GUI/lodepng.c:1231-1319 | a decoded symbol below 256 is that byte, 256 the end, 257 to 285 a copy with that length code, and more is an error |
| `InflateBlock.ByteVector.CopyReference` | kernel/arch/x86_64/GUI/lodepng.c:1283-1298 | the two-stage copy equals the overlapping byte-by-byte copy of RFC 1951 section 3.2.3 for every distance and length |
| `InflateBlock.DecodeRound` | kernel/arch/x86_64/GUI/lodepng.c:1230-1320 | given 260 free bytes, one round does what the block's definition does: bytes, end of block, or failure, and always moves the reader on |
| `InflateBlock.InflateHuffmanBlock` | kernel/arch/x86_64/GUI/lodepng.c:1217-1323 | for every stream and output limit the loop succeeds exactly when the block's definition has a result within the limit, with those bytes and that end position, never writing past the 260 bytes reserved per round |
| `CodeLengths.PushRepeats` | kernel/arch/x86_64/GUI/lodepng.c:1887-1914 | a run of equal lengths is coded by items that unfold to exactly that run |
| `CodeLengths.EncodeLengths` | kernel/arch/x86_64/GUI/lodepng.c:1881-1915 | reading the coded form back as the inflater does gives the same lengths, across the literal/distance boundary, and it is never longer than the lengths |
| `DynamicHeader.ReadItems` | kernel/arch/x86_64/GUI/lodepng.c:1135-1195 | reading the written items of a length list unfolds to the list |
| `DynamicHeader.ReadWrittenHeader` | kernel/arch/x86_64/GUI/lodepng.c:1083-1214 | a written dynamic header reads back to its two length lists and stops right after them |
| `DeflateFormat.CodeLengthOrder` | kernel/arch/x86_64/GUI/lodepng.c:600-603 | the order of code-length codes in closed form: 16, 17, 18, 0, then alternately up from 8 and down from 7 |
| `DeflateFormat.LengthsInOrder` | kernel/arch/x86_64/GUI/lodepng.c:1137-1188 | the lengths sent are first those of literals and lengths, then those of distances; the rest of both alphabets is 0 |
| `DeflateFormat.CodeLengthSymbols` | kernel/arch/x86_64/GUI/lodepng.c:1141-1187 | symbols up to 15 add that length, 16 repeats the last one 3 times and more and fails without one, 17 adds 3 zeros and more, 18 adds 11 and more, with 2, 3 and 7 extra bits |
| `DeflateFormat.HeaderFields` | kernel/arch/x86_64/GUI/lodepng.c:1958-1966 | the first 14 bits of a header hold the three counts less 257, 1 and 4, the next ones the code-length lengths in that order, three bits each |
| `InflateDynamic.ReadAllLengths` | kernel/arch/x86_64/GUI/lodepng.c:1135-1195 | for every stream the two length arrays hold what the header's definition unfolds, or there is an error exactly when it unfolds nothing |
| `InflateDynamic.GetTreeInflateDynamic` | kernel/arch/x86_64/GUI/lodepng.c:1083-1214 | for every stream the trees are those of the header at that position, or an error exactly when there is none |
| `InflateStream.InflateNoCompression` | kernel/arch/x86_64/GUI/lodepng.c:1325-1358 | a stored block's bytes are appended and the reader moves past them, or an error exactly for a bad length check or a short stream |
| `InflateStream.InflateAll` | kernel/arch/x86_64/GUI/lodepng.c:1360-1384 | for every stream the result is the bytes of its blocks up to the final one, or an error exactly when some block is malformed |
| `DeflateFormat.BlockTypes` | kernel/arch/x86_64/GUI/lodepng.c:1371-1377 | RFC 1951 section 3.2.3: behind the final bit 00 means a stored block, 10 in stream order the fixed codes, 11 an error |
| `DeflateFormat.FixedStream` | kernel/arch/x86_64/GUI/lodepng.c:1360-1384 | the stream 4B 04 00, whatever follows, inflates to the letter a |
| `DeflateFormat.StoredStream` | kernel/arch/x86_64/GUI/lodepng.c:1325-1358 | the stream 01 01 00 FE FF 61 inflates to the letter a |
| `DeflateBlock.WriteLz77Data` | kernel/arch/x86_64/GUI/lodepng.c:1755-1777 | the symbols are written as the bit stream of their tokens |
| `DeflateBlock.DeflateFixed` | kernel/arch/x86_64/GUI/lodepng.c:2002-2045 | a fixed block is written whose tokens stand for the range, header and end code included |
| `DeflateDynamic.CountFrequencies` | kernel/arch/x86_64/GUI/lodepng.c:1849-1859 | the frequencies are exactly how often the tokens use each symbol, and the end code counts once |
| `LeafSort.SortLeaves` | kernel/arch/x86_64/GUI/lodepng.c:873-894 | the bottom-up merge sort yields the leaves in order of weight, as a permutation |
| `PackageMerge.AvailableBound` | kernel/arch/x86_64/GUI/lodepng.c:925-932 | the last list has 2n - 2 items or more whenever n symbols fit the maximum length |
| `PackageMerge.Lists.BoundaryPM` | kernel/arch/x86_64/GUI/lodepng.c:896-923 | every request adds the next item of its list for as long as it has one, at the least cost, and keeps the two lookahead chains of all lists in order of weight and two items ahead of the packages made of them |
| `PackageMerge.FinalChain` | kernel/arch/x86_64/GUI/lodepng.c:985-990 | a chain of 2n - 2 items gives each of the n leaves a length from 1 to the maximum, and the lengths fill the code space exactly |
| `PackageMerge.KraftOfAssigned` | kernel/arch/x86_64/GUI/lodepng.c:988-990 | lengths counted along the chain have the Kraft sum of its leaves |
| `PackageMerge.AssignLengths` | kernel/arch/x86_64/GUI/lodepng.c:988-990 | each leaf gets as many bits as nodes of the chain include it, all other symbols none |
| `PackageLists.MergeBound` | kernel/arch/x86_64/GUI/lodepng.c:896-923 | taking any numbers of items from two sorted lists costs no less than as many first items of their merge |
| `PackageLists.ListIsCheapest` | kernel/arch/x86_64/GUI/lodepng.c:896-923 | however many leaves are taken at each level, making k items costs no less than the first k items of the list |
| `CodeCost.NoCodeIsCheaper` | kernel/arch/x86_64/GUI/lodepng.c:816-818 | every code within the maximum length and Kraft's inequality needs at least as many bits as the first 2n - 2 items of the last list weigh |
| `PackageMerge.NoneCheaper` | kernel/arch/x86_64/GUI/lodepng.c:985-990 | the lengths read off the final chain reach that bound |
| `PackageMerge.HuffmanCodeLengths` | kernel/arch/x86_64/GUI/lodepng.c:925-997 | for all frequencies the lengths are within the maximum, complete, positive for every symbol that occurs, and optimal: no code within the maximum and Kraft's inequality needs fewer bits; error 80 exactly for no symbols or more than the maximum length can tell apart |
| `DeflateDynamic.MakeFromFrequencies` | kernel/arch/x86_64/GUI/lodepng.c:1000-1012 | for all frequencies a tree of a complete, optimal code that decodes every counted symbol |
| `DeflateDynamic.BlockBitsOfPad` | kernel/arch/x86_64/GUI/lodepng.c:1861-1871 | trailing zero lengths do not change the bits of a block |
| `DeflateDynamic.WriteHeader` | kernel/arch/x86_64/GUI/lodepng.c:1950-1975 | the written header reads back to the lengths of both trees |
| `DeflateDynamic.DeflateDynamicBlock` | kernel/arch/x86_64/GUI/lodepng.c:1780-2000 | a dynamic block is written whose header gives codes under which its bits decode to the range |
| `DeflateStream.DeflateBlocks` | kernel/arch/x86_64/GUI/lodepng.c:2066-2081 | the written blocks inflate to the whole data |
| `DeflateStream.DeflateNoCompression` | kernel/arch/x86_64/GUI/lodepng.c:1717-1748 | the stored blocks inflate to the data, except that empty data gives an empty stream; five bytes are added for every 65535 bytes begun |
| `DeflateStream.SettingsAccepted` | kernel/arch/x86_64/GUI/lodepng.c:2056-2056 | error 61 exactly for block types above 2; accepted is block type 0, and types 1 and 2 without LZ77 or with a window of 2^0 to 2^15 |
| `DeflateStream.Deflate` | kernel/arch/x86_64/GUI/lodepng.c:2047-2086 | for every block type and setting the output inflates back to the input, except exactly: type 0 with empty data gives nothing to inflate, and type 1 with empty data divides by zero |
| `DeflateStream.EmptyStreamFails` | kernel/arch/x86_64/GUI/lodepng.c:1360-1384 | an empty stream is refused by the inflater |
| `DeflateStream.DeflateThenInflate` | kernel/arch/x86_64/GUI/lodepng.c:2047-2086 | running one after the other gives back the data for every setting that deflate accepts, a stored empty input aside |
| `Adler32.AddBlock` | kernel/arch/x86_64/GUI/lodepng.c:2122-2131 | a block of up to 5552 bytes summed without reduction stays below 2^32 and ends at the reduced sums |
| `Adler32.UpdateAdler32` | kernel/arch/x86_64/GUI/lodepng.c:2116-2134 | for every length and every prior checksum the deferred sums equal the per-byte Adler-32 of RFC 1950 section 8.2 |
| `Adler32.ChecksumIs` | kernel/arch/x86_64/GUI/lodepng.c:2116-2139 | the checksum in closed form: 1 plus the sum of the bytes, and above it the length plus the bytes weighted by their distance from the end, both modulo 65521 |
| `Zlib.ZlibCompress` | kernel/arch/x86_64/GUI/lodepng.c:2228-2263 | the container holds the input, except exactly where deflate fails or empty data is stored |
| `Zlib.ZlibDecompress` | kernel/arch/x86_64/GUI/lodepng.c:2147-2186 | the contents of the container, or an error exactly when its header, stream or checksum is malformed |
| `Zlib.HeaderLaw` | kernel/arch/x86_64/GUI/lodepng.c:2151-2169 | section 2.2 of RFC 1950: a header is accepted if and only if both bytes are there, are a multiple of 31 as one number, name method 8 with a window of at most 2^15, and leave the dictionary bit clear |
| `Zlib.Word32Law` | kernel/arch/x86_64/GUI/lodepng.c:320-323 | the checksum is read with its highest byte first |
| `Zlib.ContainerExample` | kernel/arch/x86_64/GUI/lodepng.c:2147-2186 | 78 01 4B 04 00 00 62 00 62 holds the letter a |
| `Zlib.CompressThenDecompress` | kernel/arch/x86_64/GUI/lodepng.c:2228-2263 | the same through the container |
| `Crc32.ByteStepIsShifts` | kernel/arch/x86_64/GUI/lodepng.c:2636-2656 | a table step is eight steps of the one-bit shift register |
| `Crc32.TableIsShifts` | kernel/arch/x86_64/GUI/lodepng.c:2356-2633 | table k, defined as one more byte step on table k-1, is k+1 bytes of shifts |
| `Crc32Table.EntryIsTable` | kernel/arch/x86_64/GUI/lodepng.c:2356-2634 | each of the 2048 literal entries of the eight tables is that of the definition |
| `Crc32Table.EntryIsShifts` | kernel/arch/x86_64/GUI/lodepng.c:2356-2634 | a linear table with the right entry for the highest power of two has the right entry for every byte |
| `Crc32Table.WordOfShift` | kernel/arch/x86_64/GUI/lodepng.c:2356-2389 | the shift register on 32-bit vectors is the one on lists of bits |
| `Crc32.EightBytes` | kernel/arch/x86_64/GUI/lodepng.c:2640-2649 | eight bytes through eight tables equal eight bytes one at a time |
| `Crc32.ComputeCrc` | kernel/arch/x86_64/GUI/lodepng.c:2637-2656 | for every list of bytes the slicing loop equals the one-bit-at-a-time CRC of RFC 2083 section 3.4 |
| `Crc32Laws.StartAndMask` | kernel/arch/x86_64/GUI/lodepng.c:2636-2656 | for every data of four bytes or more all 32 bits of the checksum are the complement of the zero-started register run over the data with its first four bytes complemented |
| `Crc32Laws.Residue` | kernel/arch/x86_64/GUI/lodepng.c:2636-2656 | appending the checksum, lowest byte first, always gives the checksum 0x2144DF1C |
| `Crc32Laws.EndChunk` | kernel/arch/x86_64/GUI/lodepng.c:2636-2656 | the checksum of IEND is 0xAE426082 |
| `Filters.PaethPredictor` | kernel/arch/x86_64/GUI/lodepng.c:4316-4326 | the two-step minimum equals the predictor as RFC 2083 section 6.6 defines it |
| `Filters.RestoreFiltered` | kernel/arch/x86_64/GUI/lodepng.c:4446-4635 | for every filter type, pixel width and previous row, reconstruction undoes filtering |
| `Filters.FilterRestored` | kernel/arch/x86_64/GUI/lodepng.c:6055-6097 | and filtering undoes reconstruction |
| `Filters.RestoreEquations` | kernel/arch/x86_64/GUI/lodepng.c:4446-4635 | the equations of RFC 2083 section 6: every restored byte is the scanline's plus, modulo 256, nothing, the byte left of it, the one above, the average of both rounded down, or whichever of left, above and upper left is nearest to left + above - upper left, ties in that order; bytes outside the rows are 0 |
| `Filters.FilterEquations` | kernel/arch/x86_64/GUI/lodepng.c:6055-6097 | every filtered byte is the row's minus that prediction, modulo 256 |
| `Filters.UpOfZeros` | kernel/arch/x86_64/GUI/lodepng.c:4467-4476 | a scanline of zeros of type 2 repeats the row above |
| `FilterLoops.RestoreAverage` | kernel/arch/x86_64/GUI/lodepng.c:4475-4509 | the loop unrolled by two, three or four bytes reconstructs what the byte-at-a-time definition does, in place too |
| `FilterLoops.RestorePaeth` | kernel/arch/x86_64/GUI/lodepng.c:4516-4620 | each of the loops unrolled for pixels of 1, 2, 3, 4, 6 and 8 bytes, and the general one, reconstructs what the byte-at-a-time definition does, in place too |
| `FilterLoops.UnfilterScanline` | kernel/arch/x86_64/GUI/lodepng.c:4446-4635 | all types, with or without a previous row: the row of the definition is written and nothing else; error 36 exactly for a type above 4 |
| `FilterLoops.FilterScanline` | kernel/arch/x86_64/GUI/lodepng.c:6055-6097 | the filtered row of the definition is written and nothing else; nothing for a type above 4 |
| `FilterImage.RestoreFilteredRows` | kernel/arch/x86_64/GUI/lodepng.c:4637-4664 | whatever types are chosen per row, reconstructing a filtered image gives the image |
| `FilterImage.ScanlineLayout` | kernel/arch/x86_64/GUI/lodepng.c:4607-4635 | row y of the filtered data starts at y times the scanline size with its type byte, followed by the row filtered against the one before it |
| `FilterImage.Unfilter` | kernel/arch/x86_64/GUI/lodepng.c:4637-4664 | the rows of the image are written, also over the data they come from; error 36 exactly if some row's type is above 4 |
| `Adam7.OnePass` | kernel/arch/x86_64/GUI/lodepng.c:4330-4333 | every pixel is in exactly one pass |
| `Adam7.PassPattern` | kernel/arch/x86_64/GUI/lodepng.c:4330-4333 | the passes of the pixels, counted from 1, repeat the eight-by-eight pattern of RFC 2083 section 2.6 |
| `Adam7.PassApart` | kernel/arch/x86_64/GUI/lodepng.c:4363-4373 | in the layout two pixels never share a bit of the interlaced buffer |
| `Adam7.LayoutOrder` | kernel/arch/x86_64/GUI/lodepng.c:4361-4373 | pixels follow each other row by row in the image and in every pass, and a pass ends at the next byte boundary |
| `Adam7Tables.GetPassValues` | kernel/arch/x86_64/GUI/lodepng.c:4352-4373 | with every term computed modulo 2^32: no entry of the three tables exceeds that of the layout, and each is right if and only if no pass before it wraps, in a side, in a line or in its size |
| `Adam7Tables.TablesAre` | kernel/arch/x86_64/GUI/lodepng.c:4361-4373 | the same entry by entry for all images |
| `Adam7Tables.RawSizeIs` | kernel/arch/x86_64/GUI/lodepng.c:3080-3085 | the overflow-avoiding row size is the plain one |
| `Adam7Tables.ExpectedSizeIsTable` | kernel/arch/x86_64/GUI/lodepng.c:5478-5492 | the size the decoder expects is the end of the encoder's wrapped table if and only if there is no row, or there are columns fewer than 2^32 - 7 and no term of the table wraps |
| `Adam7Tables.NoWrapFits` | kernel/arch/x86_64/GUI/lodepng.c:4361-4373 | unless a side itself wraps, those are exactly the images whose filter table is that of the layout |
| `Adam7Tables.WideImageWraps` | kernel/arch/x86_64/GUI/lodepng.c:4363-4367 | an image of 67108864 by 2 pixels of 64 bits whose last pass has 1 byte in the table instead of 536870913, so the sizes disagree |
| `Adam7Tables.SquareImageWraps` | kernel/arch/x86_64/GUI/lodepng.c:4370-4371 | an image of 16384 by 16384 pixels of 64 bits whose sixth pass takes no room in the table |
| `Adam7Loops.MovePixel` | kernel/arch/x86_64/GUI/lodepng.c:4685-4714 | the wrapped byte and bit addresses computed from the pass offset are those of the layout; the pixel's bits are moved there and no other bit changes |
| `Adam7Loops.HighestBitFirst` | kernel/arch/x86_64/GUI/lodepng.c:2687-2691 | the first bit of a byte is its highest |
| `Adam7Loops.AddressesIff` | kernel/arch/x86_64/GUI/lodepng.c:6335-6372 | the code's offsets and addresses are those of the layout for every pixel if and only if no pass wraps and, when interlacing pixels smaller than a byte, no pixel of the image starts behind bit 2^32 |
| `Adam7Loops.Interlace` | kernel/arch/x86_64/GUI/lodepng.c:6335-6372 | every pixel of the image is at its place in its pass |
| `Adam7Loops.Deinterlace` | kernel/arch/x86_64/GUI/lodepng.c:4678-4716 | every pixel of the passes is at its place in the image |
| `Adam7Loops.RoundTrip` | kernel/arch/x86_64/GUI/lodepng.c:4678-4716 | interlacing and deinterlacing gives back every bit of the image |
| `Adam7Loops.InterlaceThenDeinterlace` | kernel/arch/x86_64/GUI/lodepng.c:6412-6424 | running both, through a buffer of the size the table gives, returns the image for every size and depth for which nothing wraps |
| `Adam7Loops.SquareImageOverlaps` | kernel/arch/x86_64/GUI/lodepng.c:6343-6354 | the first pixels of two passes of that square image share one place |
| `Adam7Loops.TallImageRepeats` | kernel/arch/x86_64/GUI/lodepng.c:6355-6366 | interlacing 65536 by 65537 single bits reads the first row again instead of the last, although no pass wraps |
| `Heap.GetExp` | kernel/arch/x86_64/memory/liballoc.cpp:53-77 | the exponent with 2^n <= size < 2^(n+1), or -1 below 256 |
| `Heap.ObtainedIsEnough` | kernel/arch/x86_64/memory/liballoc.cpp:256-280 | in 32-bit arithmetic a new chunk holds the request if and only if request and header fit below 4 GiB less one page |
| `Heap.PagesAreLeast` | kernel/arch/x86_64/memory/liballoc.cpp:256-280 | below 4 GiB the pages asked for are the fewest, sixteen at least, that hold the request and its header |
| `Heap.Limits` | kernel/arch/x86_64/memory/liballoc.cpp:18-20 | a free tag is used for requests up to 96 bytes below its size; an excess is cut off from 352 bytes on; five whole chunks are kept; bins go from 2^8 to 2^31 |
| `Heap.HugeRequestGetsMinimum` | kernel/arch/x86_64/memory/liballoc.cpp:256-280 | a request of 4 GiB is answered with the minimum chunk |
| `HeapBins.InsertKeepsBins` | kernel/arch/x86_64/memory/liballoc.cpp:160-181 | putting a tag at the head of a bin keeps all bins well-formed doubly linked lists with every tag in the bin its index names |
| `HeapBins.RemoveKeepsBins` | kernel/arch/x86_64/memory/liballoc.cpp:183-193 | taking a tag out keeps all bins well-formed |
| `HeapGeometry.MergeKeepsGeometry` | kernel/arch/x86_64/memory/liballoc.cpp:196-222 | merging neighbours keeps the tags of every chunk side by side |
| `HeapGeometry.SplitKeepsGeometry` | kernel/arch/x86_64/memory/liballoc.cpp:224-248 | so does splitting |
| `HeapGeometry.ChunkPartition` | kernel/arch/x86_64/memory/liballoc.cpp:196-248 | every address of a chunk lies in exactly one tag: no gap, no overlap |
| `HeapGeometry.WalkMeetsAll` | kernel/arch/x86_64/memory/liballoc.cpp:196-248 | walking right from the start of a chunk meets every tag of the chunk |
| `HeapGeometry.ChunkSum` | kernel/arch/x86_64/memory/liballoc.cpp:196-248 | the real sizes of a chunk's tags sum to the size it was obtained with |
| `HeapGeometry.PayloadsApart` | kernel/arch/x86_64/memory/liballoc.cpp:300-409 | a byte of a live payload belongs to no other payload and to no header, and lies inside a chunk |
| `HeapSteps.RemoveKeeps` | kernel/arch/x86_64/memory/liballoc.cpp:354-360 | taking a free tag keeps every heap invariant, with the count of whole chunks adjusted |
| `HeapSteps.MeltLeftKeeps` | kernel/arch/x86_64/memory/liballoc.cpp:441-449 | melting into the free left neighbour keeps every heap invariant |
| `HeapSteps.MeltRightKeeps` | kernel/arch/x86_64/memory/liballoc.cpp:451-458 | absorbing the free right neighbour keeps every heap invariant |
| `HeapSteps.WholeIsVacant` | kernel/arch/x86_64/memory/liballoc.cpp:465-467 | after coalescing, the freed tag is a whole chunk if and only if the chunk holds no live block |
| `HeapSteps.VacantChunkIsWhole` | kernel/arch/x86_64/memory/liballoc.cpp:441-458 | coalescing is complete: a chunk without live blocks is one free tag |
| `Heap.Heap.InsertTag` | kernel/arch/x86_64/memory/liballoc.cpp:160-181 | the tag is at the head of the bin of its payload size |
| `Heap.Heap.RemoveTag` | kernel/arch/x86_64/memory/liballoc.cpp:183-193 | the tag is out of its bin and unlinked, its list neighbours linked to each other |
| `Heap.Heap.MeltLeft` | kernel/arch/x86_64/memory/liballoc.cpp:196-206 | the left neighbour takes over the tag |
| `Heap.Heap.AbsorbRight` | kernel/arch/x86_64/memory/liballoc.cpp:209-222 | the right neighbour is out of its bin and taken over |
| `Heap.Heap.SplitTag` | kernel/arch/x86_64/memory/liballoc.cpp:224-248 | the tag keeps exactly its payload, the rest is a free tag in its bin, and all invariants hold |
| `Heap.Heap.AllocateNewTag` | kernel/arch/x86_64/memory/liballoc.cpp:256-296 | one tag covers the new chunk, large enough for the request |
| `Heap.Heap.FindTag` | kernel/arch/x86_64/memory/liballoc.cpp:325-340 | the first tag of the bin with room for the request and one more header, or none if there is none |
| `Heap.Heap.Malloc` | kernel/arch/x86_64/memory/liballoc.cpp:300-409 | keeps every invariant; the block is new, large enough and the first that fits in its bin; pages are asked for exactly when none fits, in the computed number; null exactly when they are refused; the tag is cut to its payload exactly when the excess is worth a tag, and else keeps its size |
| `Heap.Heap.Free` | kernel/arch/x86_64/memory/liballoc.cpp:415-505 | keeps every invariant; the block is no longer live; a chunk is released exactly when it holds no other live block and five whole chunks of its class are kept, with the page count it was obtained with |
| `Heap.CopyCountIsMinimum` | kernel/arch/x86_64/memory/liballoc.cpp:531-537 | realloc copies the common prefix if and only if both sizes are below 2 GiB |
| `Heap.Heap.Realloc` | kernel/arch/x86_64/memory/liballoc.cpp:520-541 | the common prefix is preserved, no byte outside the new block changes, and the old block is gone |
| `Bitmap.FirstFitIsUnique` | kernel/arch/x86_64/memory/bitmap.cpp:141-165 | first fit has one answer, so the hint cannot change it |
| `Bitmap.AllocateFreeRestores` | kernel/arch/x86_64/memory/bitmap.cpp:167-187 | allocating and freeing restores the map |
| `Bitmap.FreeLeavesBitmap` | kernel/arch/x86_64/memory/bitmap.cpp:72-82 | freeing a block writes outside the bitmap's bytes if and only if the block has no bit there |
| `Bitmap.UsedRegionIsCovered` | kernel/arch/x86_64/memory/bitmap.cpp:119-139 | marking a region used marks every block it touches if and only if its start offset fits in the slack of its last block |
| `Bitmap.FreedRegionIsInside` | kernel/arch/x86_64/memory/bitmap.cpp:119-139 | freeing a region frees only blocks inside it if and only if rounding the start up costs no more than the odd bytes |
| `Bitmap.UnalignedFreeReachesTooFar` | kernel/arch/x86_64/memory/bitmap.cpp:119-139 | one byte off alignment frees a block that is only partly in the region |
| `Bitmap.Bitmap.Set` | kernel/arch/x86_64/memory/bitmap.cpp:72-82 | one block's bit changes and no other |
| `ByteBits.BitIsDigit` | kernel/arch/x86_64/memory/bitmap.cpp:63-82 | bit k of a byte of the bitmap is its binary digit of value 2^k |
| `Bitmap.Bitmap.MarkBlocks` | kernel/arch/x86_64/memory/bitmap.cpp:106-117 | the blocks are marked and every block below the hint stays used |
| `Bitmap.Bitmap.MarkRegion` | kernel/arch/x86_64/memory/bitmap.cpp:119-139 | the blocks of the region are marked |
| `Bitmap.Bitmap.FindFreeRegion` | kernel/arch/x86_64/memory/bitmap.cpp:141-165 | the hinted search returns the lowest free run of the whole map, and fails exactly when there is none; a search for no blocks is one for a single block |
| `Bitmap.Bitmap.Allocate` | kernel/arch/x86_64/memory/bitmap.cpp:167-180 | the lowest free run becomes used and its address is returned; 0 and no change if there is none |
| `Bitmap.Bitmap.Free` | kernel/arch/x86_64/memory/bitmap.cpp:182-187 | exactly the given blocks become free |
| `Bitmap.Bitmap.AllocatePageframe` | kernel/arch/x86_64/memory/bitmap.cpp:191-203 | the lowest free block; with none left, the unchecked result is the address one block below the start, modulo 2^64 |
| `PageTables.LeafWordIs` | kernel/arch/x86_64/memory/paging.cpp:159-165 | a leaf word is present and names the page's frame modulo 2^40, with whatever address bits the flags add |
| `PageTables.LeafWordBits` | kernel/arch/x86_64/memory/paging.cpp:159-165 | bit by bit: a leaf word has the present bit, every bit of the flags, and from bit 12 on the bits of the address, and no other |
| `PageTables.TableWordBits` | kernel/arch/x86_64/memory/paging.cpp:142-157 | bit by bit: a table word is present, writable and open to user mode, and from bit 12 on has the bits of its address |
| `PageTables.WordValues` | kernel/arch/x86_64/memory/paging.cpp:142-165 | as numbers: a table word is its address plus 7; a leaf word with flags below 4096 is its page plus the flags and the present bit |
| `PageTables.FrameIsBits` | kernel/arch/x86_64/include/kernel/memory/paging.h:49-50 | the frame of a word is its bits 12 to 51, presence its lowest bit |
| `PageTables.IndexIsShift` | kernel/arch/x86_64/memory/paging.cpp:136-139 | the indices are nine bits each above a twelve-bit offset |
| `PageTables.SamePath` | kernel/arch/x86_64/memory/paging.cpp:136-139 | two pages with the same four indices are the same page |
| `PageTables.ReachIsUnique` | kernel/arch/x86_64/memory/paging.cpp:142-157 | two pages whose walks meet in a table came the same way |
| `PageSteps.ExtendKeepsTree` | kernel/arch/x86_64/memory/paging.cpp:142-157 | adding an empty table keeps the tables a tree |
| `PageSteps.ExtendKeepsLeaf` | kernel/arch/x86_64/memory/paging.cpp:142-157 | adding an empty table changes no translation |
| `PageSteps.SetChangesOne` | kernel/arch/x86_64/memory/paging.cpp:159-165 | setting a leaf changes the translation of its page and of no other |
| `PageSteps.SetKeepsOwned` | kernel/arch/x86_64/memory/paging.cpp:159-165 | after an overwrite every mapped frame is used, no table and mapped once, if and only if the caller owned the new frame exclusively or it is device memory |
| `PageSteps.SetKeepsTablesUsed` | kernel/arch/x86_64/memory/paging.cpp:159-165 | table frames stay marked used if and only if the overwritten frame is not a table |
| `PageSteps.SharedFrameIsFreed` | kernel/arch/x86_64/memory/paging.cpp:159-165 | a frame mapped twice is freed by overwriting one mapping while the other still uses it |
| `PageSteps.SupplyNext` | kernel/arch/x86_64/memory/pmm.cpp:91-100 | taking a frame leaves exactly one less to be had, as long as frame 0 is used |
| `Paging.Pager.AllocateFrame` | kernel/arch/x86_64/memory/paging.cpp:112-119 | a frame that was free, now used and zeroed; none exactly when no frame is free or frame 0 is, whose address means failure |
| `Paging.Pager.MapPage` | kernel/arch/x86_64/memory/paging.cpp:127-173 | succeeds if and only if the address is aligned and either no table is missing on the way or frame 0 is used and as many frames are free as tables are missing; then the leaf entry has exactly the present bit, the given flags and the frame's bits, every table newly made on the way is entered with present, write and user bits and no others below its address, and every other page translates as before; the tables stay a tree; table frames stay used, and ownership is kept, exactly under the stated conditions; a failure changes no translation |
| `Paging.Pager.Translate` | kernel/arch/x86_64/memory/paging.cpp:175-234 | the direct-map window by subtraction, any other address by the walk, 0 if not mapped |
| `Paging.MappedAddress` | kernel/arch/x86_64/memory/paging.cpp:175-234 | an address of a page mapped to p translates to p plus its offset |
| `Paging.OverwriteLeavesBitmap` | kernel/arch/x86_64/memory/paging.cpp:159-165 | overwriting a mapping writes outside the frame bitmap if and only if the bitmap's bytes do not cover the overwritten address |
| `Paging.DeviceRemapLeavesBitmap` | kernel/arch/x86_64/memory/paging.cpp:159-165 | so remapping the interrupt controller's page on a machine of 128 MiB writes 126400 bytes behind the bitmap |
| `FlatText.TextAtCursor` | kernel/arch/x86_64/GUI/text_editor.cpp:277-417 | the cursor splits the flat text at its offset |
| `FlatText.JoinInjective` | kernel/arch/x86_64/GUI/text_editor.cpp:89-137 | the flat text determines the lines |
| `Editor.FullLineIsNotJoined` | kernel/arch/x86_64/GUI/text_editor.cpp:335-343 | two lines that together fill a line exactly are not joined, although such a line is allowed |
| `Editor.JoinLimit` | kernel/arch/x86_64/GUI/text_editor.cpp:335-343 | a join is accepted if and only if the joined line is allowed and not exactly full |
| `Editor.Editor.BreakAtCursor` | kernel/arch/x86_64/GUI/text_editor.cpp:289-318 | the line is split at the cursor and the later lines move down |
| `Editor.Editor.Backspace` | kernel/arch/x86_64/GUI/text_editor.cpp:319-360 | the character before the cursor goes, across line ends too, unless the joined line reaches 255 characters |
| `Editor.Editor.MoveVertically` | kernel/arch/x86_64/GUI/text_editor.cpp:361-376 | one line up or down, at the same column or the end of a shorter line |
| `EditorMoves.PlaceOnText` | kernel/arch/x86_64/GUI/text_editor.cpp:361-376 | line, column and length of the cursor's line read off the flat text: newlines before the offset, characters since the last one, characters up to the next one |
| `EditorMoves.VerticalKeys` | kernel/arch/x86_64/GUI/text_editor.cpp:361-376 | up and down keep the text and go one newline back or on, or none at the first or last line; the distance to the newline before is the old one, or the new line's length if that is less |
| `EditorMoves.VerticalReturn` | kernel/arch/x86_64/GUI/text_editor.cpp:361-376 | where there is such a line, up then down returns to the same line, and down then up |
| `Editor.Editor.MoveSideways` | kernel/arch/x86_64/GUI/text_editor.cpp:377-401 | one character back or forth in the flat text |
| `EditorMoves.SidewaysKeys` | kernel/arch/x86_64/GUI/text_editor.cpp:377-401 | left and right keep the text and step by one character as far as it goes |
| `EditorMoves.KeysAndLimits` | kernel/arch/x86_64/include/kernel/GUI/text_editor.h:7-16 | the key codes, the printable characters from space on, 512 lines of 256 bytes |
| `EditorMoves.LimitsAreExact` | kernel/arch/x86_64/GUI/text_editor.cpp:289-318 | a character is refused exactly if its line, a newline exactly if the document, would grow too long |
| `Editor.Editor.ScrollToCursor` | kernel/arch/x86_64/GUI/text_editor.cpp:51-58 | the cursor line becomes one of the visible rows, by the smallest change of the scroll offset |
| `Editor.PressedIsApplied` | kernel/arch/x86_64/GUI/text_editor.cpp:277-417 | what each key does to lines and cursor keeps the document valid and is, on the flat text, an insertion, deletion or step at the offset, or nothing where a limit refuses it |
| `Editor.Editor.HandleKey` | kernel/arch/x86_64/GUI/text_editor.cpp:277-417 | every key leaves exactly the lines and cursor it should, on the flat text an insertion, deletion or step or a refusal at a capacity limit; unsaved is set exactly when the text changed; the cursor is scrolled into view by the smallest change, and a refused key does not scroll |
| `Clipboard.DocumentFits` | kernel/arch/x86_64/GUI/text_editor.cpp:95-119 | every document fits the clipboard |
| `Clipboard.FullDocumentFills` | kernel/arch/x86_64/GUI/text_editor.cpp:95-119 | the largest document fills it to the last character |
| `Clipboard.CopyAll` | kernel/arch/x86_64/GUI/text_editor.cpp:95-119 | the clipboard holds the whole flat text |
| `Clipboard.Clear` | kernel/arch/x86_64/GUI/text_editor.cpp:129-138 | one empty line and the cursor on it |
| `Clipboard.Paste` | kernel/arch/x86_64/GUI/text_editor.cpp:120-128 | into any document: the keys of the clipboard one after the other; into an empty one it types out the document copied |
| `Clipboard.PasteInserts` | kernel/arch/x86_64/GUI/text_editor.cpp:120-128 | a text of newlines and printable characters that no limit refuses is inserted at the cursor of any document, and the cursor ends behind it |
| `Clipboard.CopyClearPaste` | kernel/arch/x86_64/GUI/text_editor.cpp:89-138 | copy all, clear, paste restores the document if and only if all of its characters can be typed |
| `Line.Step` | kernel/arch/x86_64/GUI/gui_primitives.cpp:110-120 | one step of the error term moves the longer axis and keeps the shorter one within half a unit |
| `Line.Arrival` | kernel/arch/x86_64/GUI/gui_primitives.cpp:106-109 | the end point is reached exactly when the longer axis is done |
| `Line.DrawLine` | kernel/arch/x86_64/GUI/gui_primitives.cpp:97-122 | terminates for all end points with one pixel more than the larger of the two extents, from the first to the last point, each within half a unit of the ideal line along the shorter axis |
| `Clock.NextYear` | kernel/arch/x86_64/drivers/rtc.cpp:122-142 | the closed form with y/4 - y/100 + y/400 grows by the days of each year |
| `Clock.MonthStarts` | kernel/arch/x86_64/drivers/rtc.cpp:126-127 | the days before each month of common and leap years |
| `Clock.LeapDays` | kernel/arch/x86_64/drivers/rtc.cpp:122-124 | 97 leap days in every 400 years; 2000 is a leap year, 1900 and 2100 are not |
| `Clock.KnownTimes` | kernel/arch/x86_64/drivers/rtc.cpp:129-159 | 0 for the start of 1970, 951868800 for 1 March 2000, 2^31 - 1 for 03:14:07 on 19 January 2038 |
| `Clock.RtcToUnix` | kernel/arch/x86_64/drivers/rtc.cpp:129-159 | from 1970 on the loops give the closed form |
| `Clock.UnixTimeIncreases` | kernel/arch/x86_64/drivers/rtc.cpp:129-159 | later times give larger numbers |
| `Clock.UnixTimeInjective` | kernel/arch/x86_64/drivers/rtc.cpp:129-159 | different times give different numbers |

## Left out

- PackageMerge.HuffmanCodeLengths: chain nodes are values, so their pool and its collector are absent; weights are unbounded. An alphabet of one symbol, for which the source writes behind the list, is excluded.
- InflateStream.InflateAll: a maximum output size, ignoring the stored length check and custom inflaters are fixed at their defaults.
- Zlib.ZlibDecompress: ignoring the checksum and custom decompressors are fixed at their defaults.
- Lz77Encoder.EncodeLz77: nothing is said about which of several matches is chosen, so not about compression ratio.
- DeflateStream.Deflate: says that the output inflates to the data, not which block type it uses; the contracts of the block writers do.
- Adam7Loops.MovePixel: pixels of eight bits or more are whole bytes, as in every PNG colour type.
- Adam7Tables.ExpectedSizeIsTable: 64-bit sums are unbounded; images for which they would overflow are refused before, by `lodepng_pixel_overflow`.
- FilterLoops.RestorePaeth: the variables of an unrolled loop are one list with an element per byte of the pixel.
- Heap.Heap.Malloc: sizes for which a new chunk would be too small are excluded; Heap.ObtainedIsEnough states exactly which.
- Heap.Heap.Free: only live blocks and the null pointer; the magic number that catches some other pointers is not modelled.
- Heap.Heap.Realloc: sizes from 2 GiB on are excluded, see Heap.CopyCountIsMinimum; where memory runs out the source faults and the model returns.
- Paging.Pager.MapPage: an overwritten frame for which the source writes outside the bitmap is excluded; Paging.OverwriteLeavesBitmap states exactly which. Large pages and locks are not modelled.
- Paging.Pager.Translate: a page directory is always set.
- Editor.Editor.HandleKey: what lies behind a line's terminator in its row is not modelled.
- Allocation failures inside the codec, which return error 83.
- PNG chunks, palettes, colour conversion, filter heuristics and padding-bit removal of lodepng.c.
- `calloc`, the C++ operators, page-directory duplication and release, editor drawing, mouse and file loading.
- Device drivers, windows, file systems, scheduling and locks: side effects on hardware or the screen, or code whose other half is assembly.
