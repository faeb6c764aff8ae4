# Model of libchdr's decoding core

libchdr reads CHD disc images. This project models, in Dafny, the parts of it where one computation is written
twice - a simple form and a fast, in-place or low-memory form - and proves that the forms agree and that the
simple form has the meaning it is meant to have. The model covers CHD version 5.

- **Bit reader and Huffman decoder** (`Bits`, `BitstreamModule`, `HuffmanCodes`, `HuffmanTables`,
  `HuffmanDecoderModule`, `HuffmanKraft`, `HuffmanRoundTrip`, `HuffmanTreeRoundTrip`, `HuffmanBits`). The reader
  is a class over the 32-bit accumulator; its results are functions of the data and of the number of bits
  consumed. Canonical code assignment, the one-level table and the two-level table are imperative, and are
  proved to decode the same mathematical code: disjoint intervals, longer codes first, prefix-free.
- **Hunk map** (`V5Map`, `V5MapMeaning`, `V5MapFull`, `V5MapWindows`, `V5MapLowRam`, `V5MapChunks`, `V5MapGap`,
  `V5MapAgreement`, `V5MapOneBit`, `V5MapRefused`, `V5MapBuild`, `V5MapStale`, `V5MapEncoding`,
  `V5MapRoundTrip`, `V5MapWriter`, `XorModule`, `Crc16Module`, `Crc16Division`). The map is a pure function of
  the compressed blob. The full decoder and the lazy lookup with its resume cache are imperative and refine it;
  the lazy map's `Valid` is kept by every lookup, so the refinement holds for every run of lookups. The
  checkpoint builder refines the same passes run through a rolling chunk, and these are compared with the passes
  over the whole blob.
- **Sector parity and CD frames** (`Gf256`, `EccSwar`, `Ecc`, `EccLines`, `EccGenerateModule`, `CdFrames`,
  `CdFramesLayouts`, `CdFramesWriter`). The parity of Annex A of ECMA-130 as a Reed-Solomon product code; the
  generator with four rows in one 32-bit word; the frame decoder with a private scratch buffer and in place.
- **Hunk reading** (`Sequences`, `MapEntries`, `HunkImage`, `HunkMap`, `ParentUnits`, `ReadAhead`,
  `ReadAheadRuns`, `SelfCacheModule`, `HunkRead`, `HunkWriter`). The contents of a hunk as a recursive function
  of an image and its parents; the read path with read-ahead window, self-reference cache, lazy map and parent
  delivers exactly these in every reachable state.
- **AVHuff pictures** (`DeltaRle`, `DeltaRleWriter`, `AvHuffVideo`, `AvHuffWriter`, `AvHuffStream`).
  Byte-at-a-time decoding of interleaved planes against run expansion and partial sums of each plane by itself,
  with the import of the three trees before it.

libchdr only reads. What its formats mean is stated by writers that belong to the model: of trees, compressed
maps, CD hunks, images and pictures. A writer is free wherever the format leaves a choice - how lengths are cut
into items and types into runs, which of several types an entry is written as, which codec a hunk is packed for,
how a plane is cut into run codes - and whatever it writes is read back (`TreeRoundTrip`, `WriterRoundTrip`,
`HunkRoundTrip`, `ImageRoundTrip`, `StreamRoundTrip`). Where the code falls short of that, the exact condition
is part of the statement.

Files are immutable byte sequences. Codecs are pure functions that fail, or fill their whole destination. The
tables of the source are given by formula: `ecclow` is multiplication by 2 in the field, `ecchigh` division by
3, `poffsets` is row + 86 * component, `qoffsets` is (86 * (row / 2) + row mod 2 + 88 * component) mod 2236, and
the four CRC tables are 8, 16, 24 and 32 shifts.

Where the code does not do all that its comments say, the exact condition is proved:

- A peek of more than 25 bits can lose its lowest bits (`PeekExactIff`, `WidePeekLosesBits`). The map decoders
  share the defect, so full and lazy decoding agree for all widths the header check admits. A list of entries
  comes back from the map written for it if and only if the bits so lost are zeros (`WriterRoundTrip`).
- `v5_build_stream_ensure` skips the refill near the end of the blob although the chunk may stop short of it. A
  build decodes like the full decoder if and only if the bits that a chunk fails to show of its hunk are zeros,
  and no chunk ends before a symbol that the blob still holds (`BuildAgreesIff`). Blobs of up to 4096 bytes
  always meet this (`OneChunkTold`); a map of 4097 bytes that decodes in full is refused (`RefusedMap`).
- The comments at src/libchdr_chd.c:1726 and 1865 take the windows to be in place whenever a lookup resumes. But
  a lookup that has replaced its first window may still fail to read its second, and leaves the resume cache
  pointing into the window that is gone. The cache is right if and only if the first window still holds the
  bucket of the hunk looked up last (`ResumeOkIff`, `Current`), since later buckets begin at later bytes
  (`BucketsApart`). A failed lookup spoils it exactly if it has replaced that window, and any lookup that does
  not resume and succeeds puts it right again (`GetEntry`). A run of two lookups after which resuming would go
  wrong is exhibited (`FailedLookup`).
- Precaching the file is invisible exactly for the reads that `PrecacheInvisibleIff` and
  `PrecacheInvisibleUncompressedIff` describe; between reads it is invisible where no map entry can tell
  (`PrecacheBlind`, `InsideIsBlind`).
- Sequential access transfers each byte once, except that an uncompressed hunk which straddles the end of the
  window is read in full again (`ReadsTwiceIff`, `UncompressedReadsTwice`).
- An uncompressed hunk's map entry keeps the hunk's length exactly below 2^24 (`NoneLengthIff`). Above, its
  bytes go to the front of the caller's buffer and the checksum is over the rest as it was (`ReadPlain`).
- A hunk of CD frames comes back if and only if every sector flagged for rebuilding has the synchronisation
  pattern and valid parity (`HunkRoundTrip`). Of a sector that verifies, a change of one byte is noticed exactly
  outside the synchronisation pattern and the header of mode 2, as long as it does not change the mode
  (`OneByteChanged`).
- The units of a hunk are counted in eight bits. Parent references address the parent's data if and only if
  hunks are made up of fewer than 256 whole units (`ParentAddressIff`).

## Model

| member | source | states |
|---|---|---|
| `Bits.ReadBitsSplit` | src/libchdr_bitstream.c:95-100 | Reading a + b bits is reading a bits, then b bits further on. |
| `Bits.BitAtSlice` | src/libchdr_chd.c:1763-1769 | A byte window shows the same bits as the data it was cut from. |
| `BitstreamModule.PeekExactIff` | src/libchdr_bitstream.c:44-71 | A peek is exact for every input exactly when the bits span at most four bytes; up to 25 bits always do. |
| `BitstreamModule.WidePeekLosesBits` | src/libchdr_bitstream.c:52-66 | Whenever they span more, some input shows a wrong value. |
| `BitstreamModule.PeekAgree` | src/libchdr_bitstream.c:44-71 | The value of a peek, even an inexact one, depends only on the bits asked for and the position within a byte. |
| `BitstreamModule.FillStep` | src/libchdr_bitstream.c:52-66 | One round of the refill loop extends the packed bits by a byte, also after over-consumption. |
| `BitstreamModule.Bitstream.constructor` | src/libchdr_bitstream.c:26-35 | A new stream stands at bit 0 of its data. |
| `BitstreamModule.Bitstream.Refill` | src/libchdr_bitstream.c:52-66 | Fetches until no byte fits any more; the position stays, also after over-consumption. |
| `BitstreamModule.Bitstream.Peek` | src/libchdr_bitstream.c:44-71 | The deliverable bits at the position, zeros past the data; the position stays. |
| `BitstreamModule.Bitstream.Remove` | src/libchdr_bitstream.c:80-87 | Advances by exactly the given number of bits. |
| `BitstreamModule.Bitstream.Read` | src/libchdr_bitstream.c:95-100 | The value of a peek, and the position behind it. |
| `BitstreamModule.Bitstream.ReadNarrow` | src/libchdr_bitstream.c:95-100 | Reads of at most 25 bits are exact. |
| `BitstreamModule.Bitstream.PositionBits` | src/libchdr_bitstream.c:133-136 | The number of bits consumed. |
| `BitstreamModule.Bitstream.SeekBits` | src/libchdr_bitstream.c:146-154 | Stands at the position from any earlier state, so all later reads are those of a reader that consumed its way there. |
| `BitstreamModule.Bitstream.Overflow` | src/libchdr_bitstream.c:19 | Reported exactly when more bits were consumed than there are; after over-consumption of the accumulator, rounded to whole bytes. |
| `BitstreamModule.Bitstream.Flush` | src/libchdr_bitstream.c:162-171 | Lands on the next byte boundary and returns it. |
| `BitstreamModule.Bitstream.Save` | src/libchdr_chd.c:1869-1870 | A saved state is that of the stream. |
| `BitstreamModule.Bitstream.Resume` | src/libchdr_chd.c:1730-1731 | Continuing from a saved state is continuing the stream. |
| `HuffmanCodes.Contiguous` | src/libchdr_huffman.c:539-547 | The codes of one length end where the codes of the next shorter length begin. |
| `HuffmanCodes.LongerFirst` | src/libchdr_huffman.c:539-547 | Longer codes lie below shorter ones. |
| `HuffmanCodes.Disjoint` | src/libchdr_huffman.c:549-555 | The intervals of two symbols do not meet; longer codes first, then symbol order. |
| `HuffmanCodes.OwnerUnique` | src/libchdr_huffman.c:549-555 | A window belongs to at most one symbol. |
| `HuffmanCodes.OwnedIffBelowTotal` | src/libchdr_huffman.c:539-555 | The owned windows are exactly those below the sum of all intervals. |
| `HuffmanCodes.FitsIff` | src/libchdr_huffman.c:542-544 | Table building succeeds exactly when the codes cover nothing, the lower half or the whole table: length 1 is exempt from the parity check. |
| `HuffmanCodes.PrefixFree` | src/libchdr_huffman.c:523-557 | At most one code begins at any position of any data. |
| `HuffmanCodes.FindMeaning` | src/libchdr_huffman.c:172-198 | The decoded symbol's code begins at the position, and no earlier symbol's does. |
| `HuffmanCodes.CoveredIffBelowTotal` | src/libchdr_huffman.c:597-607 | A window has a code exactly when it lies below the sum of all intervals. |
| `HuffmanCodes.DecodeLocal` | src/libchdr_huffman.c:172-198 | Symbol, length and being covered depend only on the bits the code itself takes; what a peek shows behind them does not matter. |
| `HuffmanBits.SameCode` | src/libchdr_huffman.c:172-198 | Streams that decode to the same symbol and length agree on its bits, unless the code is one that no bit can change. |
| `HuffmanBits.SameTwoCodes` | src/libchdr_chd.c:1571-1573 | Two symbols decoded alike in a row, one stream showing zeros from some bit on, took the same bits each. |
| `HuffmanKraft.EdgeIsAbove` | src/libchdr_huffman.c:539-547 | Start codes measure the Kraft sum of the longer codes. |
| `HuffmanKraft.AcceptedIffKraft` | src/libchdr_huffman.c:523-557 | Lengths are accepted exactly when none exceeds the maximum and their Kraft sum is 0, one half or 1. |
| `HuffmanTables.FullFill` | src/libchdr_huffman.c:728-735 | Filling one code's range of the one-level table keeps the entries of all others and gives it its own. |
| `HuffmanTables.ShortFitsIff` | src/libchdr_huffman.c:616-626 | A short code fits the first-level table exactly when it fits the full table. |
| `HuffmanTables.LongFitsIff` | src/libchdr_huffman.c:689-699 | A long code fits its second-level table exactly when it fits the full table. |
| `HuffmanTables.EscapeKeeps` | src/libchdr_huffman.c:653-682 | An escape entry for a prefix leaves every other window's view as it was. |
| `HuffmanTables.TwoShortFill` | src/libchdr_huffman.c:613-630 | Entering a short code keeps the two-level view right for all codes entered so far. |
| `HuffmanTables.TwoEscape` | src/libchdr_huffman.c:653-682 | A new second-level table never replaces a short code's entry. |
| `HuffmanTables.TwoLong` | src/libchdr_huffman.c:689-701 | Entering a long code keeps the two-level view right for all codes entered so far. |
| `HuffmanTables.EscapesBounded` | src/libchdr_huffman.c:656-660 | There are never more second-level tables than first-level entries. |
| `HuffmanDecoderModule.HuffmanDecoder.CountLengths` | src/libchdr_huffman.c:528-537 | The histogram counts every length; a length above the maximum is refused. |
| `HuffmanDecoderModule.HuffmanDecoder.StartCodes` | src/libchdr_huffman.c:539-547 | Every length gets its start code; an odd sum is refused, except for length 1. |
| `HuffmanDecoderModule.HuffmanDecoder.AssignCanonicalCodes` | src/libchdr_huffman.c:523-557 | Succeeds exactly on consistent lengths; every coded symbol then holds its canonical code. |
| `HuffmanDecoderModule.HuffmanDecoder.BuildFullTable` | src/libchdr_huffman.c:710-740 | Succeeds exactly when the codes fit; every owned window then maps to its owner. |
| `HuffmanDecoderModule.HuffmanDecoder.Prefill` | src/libchdr_huffman.c:608-609 | Every first-level entry becomes the placeholder. |
| `HuffmanDecoderModule.HuffmanDecoder.BuildTwoLevelTable` | src/libchdr_huffman.c:566-708 | Succeeds on the same lengths as the one-level build, whatever the tables held before; the guard of 2048 never fires; unowned windows read as symbol 0 of length 1. |
| `HuffmanDecoderModule.HuffmanDecoder.EnsureSubtable` | src/libchdr_huffman.c:653-687 | Finds or makes the second-level table of a prefix, within the bound. |
| `HuffmanDecoderModule.HuffmanDecoder.BuildLookupTable` | src/libchdr_huffman.c:565-741 | Either table decodes the current lengths only. |
| `HuffmanDecoderModule.HuffmanDecoder.EntryDecodes` | src/libchdr_huffman.c:178-193 | A table entry is the symbol and length of the code at the position, by one level or by two. |
| `HuffmanDecoderModule.HuffmanDecoder.DecodeOne` | src/libchdr_huffman.c:172-198 | Returns the symbol whose code begins at the position and consumes exactly that code; with a two-level table also where no code begins. |
| `HuffmanDecoderModule.HuffmanDecoder.ReadTree` | src/libchdr_huffman.c:206-250 | Reads the run-length coded lengths, or refuses a run past the last symbol. |
| `HuffmanDecoderModule.HuffmanDecoder.ImportTreeRle` | src/libchdr_huffman.c:206-264 | The three outcomes are decided by the data alone, in the source's order; after success the decoder decodes the lengths just read. |
| `HuffmanRoundTrip.DecodesCode` | src/libchdr_huffman.c:172-198 | A symbol's code, whatever follows it, decodes to the symbol. |
| `HuffmanRoundTrip.RoundTrip` | src/libchdr_huffman.c:172-198 | Decoding an encoded list returns it and advances by the sum of the code lengths, whatever bits follow. |
| `HuffmanRoundTrip.PackedRoundTrip` | src/libchdr_huffman.c:523-557 | The same for codes packed into bytes. |
| `HuffmanRoundTrip.DecodeSymbols` | src/libchdr_huffman.c:172-198 | Decoding symbol by symbol from a stream yields the decoded list. |
| `HuffmanTreeRoundTrip.TreeRoundTrip` | src/libchdr_huffman.c:206-250 | However lengths are cut into single items and runs, reading the items returns the lengths and stops behind them. |
| `HuffmanTreeRoundTrip.LongRunRefused` | src/libchdr_huffman.c:238-240 | A run past the last symbol is refused, after any items that are not. |
| `HuffmanTreeRoundTrip.WidthIsLeast` | src/libchdr_huffman.c:212-218 | A stored length takes the fewest bits that hold the maximum, but at least three. |
| `HuffmanTreeRoundTrip.ImportsStored` | src/libchdr_huffman.c:206-264 | A stored tree is imported exactly if its lengths make a code and it ends within the data. |
| `XorModule.XorAssoc` | src/libchdr_chd.c:1054 | Exclusive or is associative. |
| `XorModule.XorParts` | src/libchdr_chd.c:1051-1052 | Exclusive or acts on the halves of a word separately. |
| `Crc16Module.ShiftsXor` | src/libchdr_chd.c:1046-1048 | Polynomial division is linear: the remainder of a sum is the sum of remainders. |
| `Crc16Module.ByteStep` | src/libchdr_chd.c:1059-1061 | The table step is eight bits of polynomial division. |
| `Crc16Module.SliceStep` | src/libchdr_chd.c:1049-1057 | Four table loads are four byte steps, for every remainder and all bytes. |
| `Crc16Module.CrcConcat` | src/libchdr_chd.c:887-893 | Continuing from a partial result is the checksum of the concatenation. |
| `Crc16Module.Crc16Update` | src/libchdr_chd.c:894-1063 | The loop by fours with its tail computes the bitwise definition, for every length and starting value. |
| `Crc16Module.OwnChecksum` | src/libchdr_chd.c:1059-1061 | A message followed by its checksum, high byte first, has checksum 0. |
| `Crc16Division.CrcIsRemainder` | src/libchdr_chd.c:887-893 | The checksum is the one 16-bit remainder of the message, shifted by 16 bits, on division by x^16 + x^12 + x^5 + 1 over the field of two elements, whatever the starting value. |
| `V5Map.MapBytesAt` | src/libchdr_chd.c:1249 | Entry h occupies bytes 12h to 12h + 12 of the decoded map. |
| `V5Map.NextTypeLocal` | src/libchdr_chd.c:1224-1246 | Pass 1 for one hunk depends only on the bits it consumes. |
| `V5Map.NextEntryLocal` | src/libchdr_chd.c:1249-1313 | Pass 2 for one hunk depends only on the bits it consumes and their place in a byte. |
| `V5MapMeaning.KindsAreExpanded` | src/libchdr_chd.c:1224-1246 | The types are the expansion of the literals and runs read: a run repeats the type before it. |
| `V5MapMeaning.StoredBackToBack` | src/libchdr_chd.c:1248-1273 | Stored hunks lie back to back in the file, in hunk order. |
| `V5MapMeaning.ShortReferences` | src/libchdr_chd.c:1282-1303 | The short reference codes mean the last self or parent target again, the one after it, or the hunk's own place in the parent. |
| `V5MapFull.ReadType` | src/libchdr_chd.c:1227-1245 | One step of pass 1, or an overflow exactly when a symbol is needed past the end. |
| `V5MapFull.ReadFields` | src/libchdr_chd.c:1254-1304 | One step of pass 2, for all widths up to 32; `V5MapRoundTrip.EntryReads` says which field is which. |
| `V5MapFull.DecodeTypes` | src/libchdr_chd.c:1224-1246 | Leaves every hunk's type in its entry, and stops at the start of pass 2. |
| `V5MapFull.DecodeEntries` | src/libchdr_chd.c:1248-1313 | Turns the type bytes into all entries, in place. |
| `V5MapFull.DecompressV5Map` | src/libchdr_chd.c:1195-1325 | Unless pass 1 meets an unassigned code, succeeds exactly on maps whose tree, extent and checksum are good, and then holds every entry. |
| `V5MapRoundTrip.TokenReads` | src/libchdr_chd.c:1237-1244 | A literal type, or a run of 3 to 274 hunks in one digit or two, is read back. |
| `V5MapRoundTrip.TypesRoundTrip` | src/libchdr_chd.c:1224-1246 | However types are cut into literals and runs, pass 1 reads them back. |
| `V5MapRoundTrip.EntryReads` | src/libchdr_chd.c:1254-1304 | For each of the types, pass 2 reads an entry back exactly if its fields lose no one, and goes on from the next: length before checksum, checksum alone, or target. |
| `V5MapRoundTrip.MapRoundTrip` | src/libchdr_chd.c:1224-1313 | For any code, any cut of the types and any fitting choice of types, decoding returns the list of entries written, if and only if no field loses a one. |
| `V5MapWriter.WriterRoundTrip` | src/libchdr_chd.c:1195-1325 | The same for whole blobs with their tree; the map is then accepted with the checksum of the serialised entries. |
| `V5MapWriter.PlainValid` | src/libchdr_chd.c:1249-1313 | Every consistent list of entries can be written. |
| `V5MapWriter.ReadBack` | src/libchdr_chd.c:1195-1325 | Decoding in full what was written for a list of entries yields the list, serialised, exactly under its checksum. |
| `V5MapWindows.CutServesTypes` | src/libchdr_chd.c:1748-1757 | The bytes up to the next checkpoint show pass 1 of the whole bucket. |
| `V5MapWindows.CutServesFields` | src/libchdr_chd.c:1751-1760 | Likewise for pass 2. |
| `V5MapWindows.TypeInWindow` | src/libchdr_chd.c:1788-1804 | Decoding a type from the window, or stopping, is decoding it from the whole blob. |
| `V5MapWindows.EntryInWindow` | src/libchdr_chd.c:1806-1852 | Decoding an entry from the window is decoding it from the whole blob. |
| `V5MapWindows.WindowsServe` | src/libchdr_chd.c:1747-1761 | The bytes between two checkpoints, cut to the blob, show both passes of the bucket. |
| `V5MapWindows.BucketsApart` | src/libchdr_chd.c:1224-1246 | A later bucket's pass 1 begins at a later byte: one bit stands for at most 92 hunks. |
| `V5MapLowRam.MapWindow.Ensure` | src/libchdr_chd.c:1656-1687 | Unless the window already holds the bucket, it comes to hold the bucket's bytes, cut to the blob. A read is made exactly if there are bytes to fetch; it fails exactly if that read does, and then leaves the window as it was. |
| `V5MapLowRam.LowRamMap.ResumeOkIff` | src/libchdr_chd.c:1722-1731 | The resume cache is right if and only if the first window still holds the bucket of the hunk looked up last; failed lookups included. |
| `V5MapLowRam.LowRamMap.ReturnsOnlyBySuccess` | src/libchdr_chd.c:1680-1686 | Once replaced, that bucket comes back to the first window only in a lookup that succeeds and so renews the cache. |
| `V5MapLowRam.LowRamMap.constructor` | src/libchdr_chd.c:1640-1642 | Checkpoints that are the full decoder's states make a valid lazy map. |
| `V5MapLowRam.LowRamMap.FindCheckpoint` | src/libchdr_chd.c:1742-1745 | The checkpoint of the bucket the hunk lies in. |
| `V5MapLowRam.LowRamMap.OpenWindows` | src/libchdr_chd.c:1747-1761 | Both windows are fetched, the first before the second, each exactly if it is not cached and not empty; it fails exactly if one of these reads does, and then only the first window can have changed. |
| `V5MapLowRam.LowRamMap.OpenBucket` | src/libchdr_chd.c:1763-1769 | Both streams stand at the bucket's start, in windows that serve the whole bucket. |
| `V5MapLowRam.LowRamMap.Begin` | src/libchdr_chd.c:1722-1779 | Resumed or from a checkpoint, the state is the full decoder's before the first hunk decoded. |
| `V5MapLowRam.LowRamMap.Step` | src/libchdr_chd.c:1788-1852 | One hunk from the windows: no overflow, the full map's entry, and the full decoder's next state. |
| `V5MapLowRam.LowRamMap.CatchUp` | src/libchdr_chd.c:1781-1861 | Catches up to the hunk asked for and keeps its entry. |
| `V5MapLowRam.LowRamMap.Remember` | src/libchdr_chd.c:1863-1875 | The resume cache is the full decoder's state, its streams in the cached windows. |
| `V5MapLowRam.LowRamMap.GetEntry` | src/libchdr_chd.c:1696-1878 | In every state that lookups reach, forward, backward, repeated or across buckets, the 12 bytes of the full map's entry; refused past the last hunk; a read error exactly if a window it needs cannot be read. Success makes the resume cache right; failure spoils it exactly if it has replaced the first window. |
| `V5MapWriter.LookUp` | src/libchdr_chd.c:1696-1878 | A lazy lookup in what was written for a list of entries yields the entry, serialised. |
| `V5MapChunks.NextOff` | src/libchdr_chd.c:1393-1403 | Making room never moves the chunk backwards, past the position, or past the blob. |
| `V5MapChunks.RoomMade` | src/libchdr_chd.c:1393-1403 | A chunk is given up exactly when it ends within 16 bytes and the blob does not. |
| `V5MapGap.NextTypeIff` | src/libchdr_chd.c:1482-1501 | A type decodes through a chunk as over the whole blob if and only if the bits it takes past the chunk are zeros, or bits do not matter to the code. |
| `V5MapGap.FieldIff` | src/libchdr_chd.c:1586 | A field reads alike exactly when the bits delivered for it are zeros past the chunk. |
| `V5MapGap.NextEntryIff` | src/libchdr_chd.c:1578-1624 | An entry reads through a chunk as over the whole blob if and only if the bits its fields are read from are zeros past the chunk. |
| `V5MapAgreement.StopsIff` | src/libchdr_chd.c:1487 | The overflow check against the chunk errs exactly between the chunk's end and the blob's. |
| `V5MapAgreement.TypesAgreeIff` | src/libchdr_chd.c:1459-1503 | A chunked pass 1 goes through the full decoder's states and stops if and only if its chunks tell every hunk. |
| `V5MapAgreement.FieldsAgreeIff` | src/libchdr_chd.c:1532-1631 | Given the types, so does pass 2, with its entries. |
| `V5MapAgreement.BuildAgreesIff` | src/libchdr_chd.c:1398-1401 | All three streams of the build agree with the full decoder on every hunk if and only if every chunk tells its hunk. |
| `V5MapAgreement.UntoldType` | src/libchdr_chd.c:1400-1401 | A hunk whose types are not told is decoded where the refill was skipped near the blob's end, with fewer than 24 bits left in the chunk. |
| `V5MapAgreement.UntoldField` | src/libchdr_chd.c:1400-1401 | The same for fields, with fewer than 48 bits left. |
| `V5MapAgreement.OneChunkTold` | src/libchdr_chd.c:1353-1401 | Blobs of up to 4096 bytes are told in full. |
| `V5MapAgreement.AgreementSuffices` | src/libchdr_chd.c:1633-1638 | A build that agrees gives the verdict of two full passes and one checksum. |
| `V5MapAgreement.PointSame` | src/libchdr_chd.c:1540-1547 | Its checkpoints are the full decoder's states. |
| `V5MapRefused.LateStops` | src/libchdr_chd.c:1487-1492 | In one map the chunk ends before a symbol that the blob holds. |
| `V5MapRefused.RefusedMap` | src/libchdr_chd.c:1398-1401 | That map, of 4097 bytes, is accepted by decoding in full and refused by the builder. |
| `V5MapBuild.BuildStream.constructor` | src/libchdr_chd.c:1381-1386 | A stream over a blob. |
| `V5MapBuild.BuildStream.Fill` | src/libchdr_chd.c:1368-1379 | Fetches the chunk at a byte. It fails exactly if there is something to read and the read fails, and then keeps its place. |
| `V5MapBuild.BuildStream.Ensure` | src/libchdr_chd.c:1393-1412 | Makes room as specified without moving the position. It fails exactly if it has to refill and the read fails, and then keeps its place. |
| `V5MapBuild.BuildStream.PositionBits` | src/libchdr_chd.c:1414-1417 | The position in the whole blob. |
| `V5MapBuild.ImportFromChunk` | src/libchdr_chd.c:1450-1456 | Importing the tree from the first chunk is importing it from the blob. |
| `V5MapBuild.TypeHunk` | src/libchdr_chd.c:1475-1501 | One hunk of a chunked pass 1: its next state, or a stop exactly where that stops. |
| `V5MapBuild.FieldHunk` | src/libchdr_chd.c:1578-1630 | One hunk of the chunked pass 2: its entry and next state. |
| `V5MapBuild.TraverseTypes` | src/libchdr_chd.c:1459-1503 | The first traversal yields the pass 1 part of the checkpoints and the end of pass 1, or stops exactly where the chunked pass does. |
| `V5MapBuild.TraverseEntries` | src/libchdr_chd.c:1532-1631 | The fused traversal yields the pass 2 part of the checkpoints and, entry by entry, the checksum over all of them, or stops exactly where the chunked pass does. |
| `V5MapBuild.BuildMapCheckpoints` | src/libchdr_chd.c:1419-1644 | For every blob the verdict and checkpoints of the chunked passes, unless a read fails; where every chunk tells its hunk, the verdict of decoding in full and a valid lazy map. |
| `V5MapStale.FirstLookup` | src/libchdr_chd.c:1742-1878 | In a freshly built map of two buckets, looking up hunk 0 reads both its windows and caches the state before hunk 1. |
| `V5MapStale.SecondLookup` | src/libchdr_chd.c:1754-1761 | A lookup in the other bucket then replaces the first window and fails on the second, and keeps the cache. |
| `V5MapStale.FailedLookup` | src/libchdr_chd.c:1680-1731 | After these two lookups, the lookup of hunk 1 would resume from a cache that is wrong. |
| `Gf256.HighDivides` | src/libchdr_cdrom.c:356-358 | `ecchigh` divides by the generator plus one. |
| `Gf256.HornerAppend` | src/libchdr_cdrom.c:350-353 | One accumulator step appends a symbol to both syndromes. |
| `Gf256.ChecksUnique` | src/libchdr_cdrom.c:356-358 | Two check symbols complete the data to a codeword exactly when they are the computed ones. |
| `Gf256.HornerIsWeighted` | src/libchdr_cdrom.c:350-353 | The accumulator is the second row of the check matrix: symbols weighted by falling powers of 2. |
| `Gf256.GeneratorIsRoot` | src/libchdr_cdrom.c:109-127 | The generator is a root of x^8 + x^4 + x^3 + x^2 + 1. |
| `EccSwar.PackLane` | src/libchdr_cdrom.c:467-468 | The lanes of four packed bytes are the bytes. |
| `EccSwar.Add4Lane` | src/libchdr_cdrom.c:471-472 | A word-wide exclusive or is four sums. |
| `EccSwar.XTime4Lane` | src/libchdr_cdrom.c:439-442 | A word-wide step is four products by the generator, with no carry between lanes. |
| `Ecc.CodewordIffParity` | src/libchdr_cdrom.c:377-398 | A line is a codeword exactly when its stored check symbols are the computed ones. |
| `Ecc.ParitySame` | src/libchdr_cdrom.c:326-331 | A line's parity depends only on the bytes before the parity area. |
| `Ecc.AccumulatorsNext` | src/libchdr_cdrom.c:336-356 | One component, with the mode 2 header taken as zero, in terms of both syndromes. |
| `Ecc.ComputeBytes` | src/libchdr_cdrom.c:324-359 | Computes the two check symbols that make the line a codeword. |
| `Ecc.Verify` | src/libchdr_cdrom.c:377-398 | Succeeds exactly when all 86 P lines and 52 Q lines are codewords. |
| `EccLines.OffsetPlace` | src/libchdr_cdrom.c:157-308 | The offsets of P are the columns of a matrix of 26 rows of 43 words, those of Q its diagonals. |
| `EccLines.ChecksPlace` | src/libchdr_cdrom.c:377-398 | The check symbols of P are the last two rows of the matrix, those of Q follow it. |
| `EccLines.WordAt` | src/libchdr_cdrom.c:326-331 | The symbols of a line are the bytes at its places, those of a mode 2 header taken as zero. |
| `EccLines.OnePerP` | src/libchdr_cdrom.c:157-245 | Every byte from the header to the parity of P lies on exactly one line of P. |
| `EccLines.OnePerQ` | src/libchdr_cdrom.c:254-308 | Every byte from the header on lies on exactly one line of Q. |
| `EccLines.OneByteChanged` | src/libchdr_cdrom.c:377-398 | A sector that verifies, with one byte changed but not its mode, still verifies if and only if the byte is in the synchronisation pattern or in a mode 2 header. |
| `EccGenerateModule.GroupWordLane` | src/libchdr_cdrom.c:457-469 | The mask of the first group's first component is the offset-below-4 rule, in all four lanes. |
| `EccGenerateModule.GroupStep` | src/libchdr_cdrom.c:453-473 | A word-wide component step is the scalar step of each of four rows. |
| `EccGenerateModule.PGroup` | src/libchdr_cdrom.c:450-479 | Four rows at once give the scalar check symbols of each. |
| `EccGenerateModule.StoreGroup` | src/libchdr_cdrom.c:481-488 | The eight bytes land in their places. |
| `EccGenerateModule.PGenerate` | src/libchdr_cdrom.c:444-495 | All 86 rows of P, four at a time and then the two left over; nothing else changes. |
| `EccGenerateModule.PTail` | src/libchdr_cdrom.c:491-494 | The rows left over, one by one. |
| `EccGenerateModule.StoreLine` | src/libchdr_cdrom.c:491-494 | One line's check symbols, stored without disturbing their own computation. |
| `EccGenerateModule.QGenerate` | src/libchdr_cdrom.c:504-508 | All 52 diagonals of Q, over data and P. |
| `EccGenerateModule.Generate` | src/libchdr_cdrom.c:497-509 | Every line of the sector becomes a codeword, whatever it held; only the parity area changes. |
| `EccGenerateModule.FilledIsCodeword` | src/libchdr_cdrom.c:497-509 | P from the data, then Q from data and P, makes all lines codewords. |
| `EccGenerateModule.FilledUnique` | src/libchdr_cdrom.c:497-509 | It is the only sector with that data that verifies. |
| `CdFrames.HunkFrame` | src/libchdr_cdrom.c:582-599 | Frame k of a hunk lies at 2448 k. |
| `CdFrames.HunkOfFrames` | src/libchdr_cdrom.c:582-599 | A buffer with every frame at its place is the hunk. |
| `CdFrames.FlaggedPasses` | src/libchdr_cdrom.c:593-597 | Every flagged frame of a decompressed hunk verifies. |
| `CdFrames.RebuiltRestores` | src/libchdr_cdrom.c:593-597 | Rebuilding restores a sector exactly when that had the synchronisation pattern and valid parity. |
| `CdFramesLayouts.Memcpy` | src/libchdr_cdrom.c:636-641 | Copies between regions that do not overlap, which every call is shown to respect. |
| `CdFramesLayouts.ReadHeader` | src/libchdr_cdrom.c:541-566 | The header is refused exactly when truncated or when it announces more than there is. |
| `CdFramesLayouts.Rebuild` | src/libchdr_cdrom.c:646-653 | A flagged sector is rebuilt in place, any other left alone. |
| `CdFramesLayouts.Interleave` | src/libchdr_cdrom.c:582-599 | Copying out of the scratch buffer, first to last, yields the hunk. |
| `CdFramesLayouts.MoveSector` | src/libchdr_cdrom.c:636-641 | A sector moves to its frame by way of the bounce buffer, which does not touch the subcode. |
| `CdFramesLayouts.MoveFrame` | src/libchdr_cdrom.c:628-654 | Finishing one frame in place touches no sector below it. |
| `CdFramesLayouts.Spread` | src/libchdr_cdrom.c:627-655 | Spreading in place, last to first, yields the hunk of the packed sectors. |
| `CdFramesLayouts.DecompressScratch` | src/libchdr_cdrom.c:531-599 | With a private scratch buffer: the specified error or hunk. |
| `CdFramesLayouts.DecompressInPlace` | src/libchdr_cdrom.c:531-658 | In place: the same error or hunk, for every frame count and bitmap. |
| `CdFramesWriter.FlagReads` | src/libchdr_cdrom.c:593 | Flags packed eight to a byte, the first one lowest, are found again. |
| `CdFramesWriter.HeaderReads` | src/libchdr_cdrom.c:541-566 | Flags, a big-endian length of two or three bytes, packed sectors and packed subcode are found where they were put. |
| `CdFramesWriter.HunkRoundTrip` | src/libchdr_cdrom.c:531-599 | Split into sectors and subcode, with synchronisation and parity dropped where flagged, a hunk comes back if and only if all flagged sectors are regular. |
| `CdFramesWriter.DecompressWritten` | src/libchdr_cdrom.c:531-658 | The same through both layouts. |
| `MapEntries.EntryRead` | src/libchdr_chd.c:3350-3353 | Reading an entry gives back what the map decoder wrote, cut to 24, 48 and 16 bits. |
| `MapEntries.EntryLayout` | src/libchdr_chd.c:1305-1312 | An entry is its type, 24 bits of length, 48 of offset and 16 of checksum, each big-endian. |
| `HunkImage.ContentSize` | src/libchdr_chd.c:3309-3493 | A readable hunk has exactly one hunk's worth of bytes, through all references and parents; where the source writes less, no more than that. |
| `HunkImage.ReadableRoot` | src/libchdr_chd.c:3416-3452 | A readable hunk is the one its chain of back-references ends at; if that is stored in the file, its checksum holds. |
| `HunkImage.InsideIsBlind` | src/libchdr_chd.c:3014-3025 | If all entries lie in the file and are no longer than a hunk, precaching is invisible. |
| `HunkMap.NoneLengthIff` | src/libchdr_chd.c:1269-1273 | An entry without compression keeps the hunk's length exactly below 2^24. |
| `HunkMap.MapInMemory` | src/libchdr_chd.c:3323 | The entry that the read path finds in the map in memory is the one a lazy lookup returns. |
| `HunkMap.MapSuits` | src/libchdr_chd.c:1269-1313 | Decoded maps meet what the read path relies on: uncompressed entries have the hunk's length modulo 2^24. |
| `ParentUnits.DataAt` | src/libchdr_chd.c:3463-3465 | Hunk k lies at its place in the image's data. |
| `ParentUnits.UnitPlace` | src/libchdr_chd.c:3461-3468 | Where a unit of the parent lies: its hunk and the bytes before it there. |
| `ParentUnits.ParentContentIsData` | src/libchdr_chd.c:3455-3487 | With whole units a parent reference, aligned or not, yields the parent's data from the unit on. |
| `ParentUnits.Misaddressed` | src/libchdr_chd.c:3457-3461 | Without whole units, an image whose only hunk is a reference into a readable parent misses the parent's data. |
| `ParentUnits.ParentAddressIff` | src/libchdr_chd.c:3457-3487 | References address the parent's data, for all images of these sizes, if and only if hunks are made up of fewer than 256 whole units. |
| `ReadAhead.PrecacheInvisibleIff` | src/libchdr_chd.c:3014-3025 | Compressed reads from the file and from a copy agree exactly under the stated bounds. |
| `ReadAhead.PrecacheInvisibleUncompressedIff` | src/libchdr_chd.c:3131-3163 | Likewise for uncompressed reads, of which a copy refuses just the empty ones past the end. |
| `ReadAhead.FileReader.SetCacheBudget` | src/libchdr_chd.c:2259-2297 | A budget below one hunk leaves the window off; otherwise a fresh, empty window. |
| `ReadAhead.FileReader.Precache` | src/libchdr_chd.c:2315-2333 | One transfer of the whole file, unless done already; afterwards reads are served from the copy, or nothing has changed if the read failed. |
| `ReadAhead.FileReader.SlideDown` | src/libchdr_chd.c:3072-3076 | Overlapping bytes are moved to the front intact. |
| `ReadAhead.FileReader.Refill` | src/libchdr_chd.c:3077-3099 | The window again equals the file from its offset on, or is empty after a failed read. |
| `ReadAhead.FileReader.Fill` | src/libchdr_chd.c:3055-3108 | Hit, backward miss, refill or slide, with exactly the transfers of the pure step. |
| `ReadAhead.FileReader.ReadCompressed` | src/libchdr_chd.c:3012-3124 | The window is invisible: the result is that of a direct read, also when a refill fails. |
| `ReadAhead.FileReader.ReadUncompressed` | src/libchdr_chd.c:3131-3163 | Served from the window or the file, the same bytes; the window does not move. |
| `ReadAheadRuns.StepAdvances` | src/libchdr_chd.c:3055-3108 | A read in file order transfers only bytes beyond everything requested or held before. |
| `ReadAheadRuns.RunAscends` | src/libchdr_chd.c:3040-3046 | The transfers of an orderly run without straddling reads follow one another in the file. |
| `ReadAheadRuns.ReadsTwiceIff` | src/libchdr_chd.c:3040-3046 | An orderly run reads a byte twice exactly when an uncompressed read straddles the window's end. |
| `ReadAheadRuns.CompressedReadsOnce` | src/libchdr_chd.c:3040-3046 | Orderly compressed reads transfer no byte twice, for any capacity that holds them. |
| `ReadAheadRuns.FewTransfers` | src/libchdr_chd.c:3040-3108 | Orderly compressed reads of at most m bytes through a window of cap bytes make at most one transfer for every cap - m + 1 bytes of the file, and one more. |
| `ReadAheadRuns.UncompressedReadsTwice` | src/libchdr_chd.c:3142-3153 | With uncompressed reads a run can: one is exhibited. |
| `SelfCacheModule.SelfCache.Ensure` | src/libchdr_chd.c:474-498 | Slots for the budget, at least one, all empty; or none; an existing cache is left alone. |
| `SelfCacheModule.SelfCache.Lookup` | src/libchdr_chd.c:500-511 | Finds a hunk exactly if cached, and then what a read of it delivers. |
| `SelfCacheModule.SelfCache.Store` | src/libchdr_chd.c:513-527 | Replaces the slot next in turn, unless the hunk is cached; every slot still holds what a read of its hunk delivers, none twice. |
| `HunkRead.ChdFile.constructor` | src/libchdr_chd.c:2027-2030 | A file over a parent of its own starts out valid. |
| `HunkRead.ChdFile.SetCacheBudget` | src/libchdr_chd.c:2259-2297 | Can be called between any two reads. |
| `HunkRead.ChdFile.Precache` | src/libchdr_chd.c:2315-2333 | Can be called between any two reads, where no map entry can tell. |
| `HunkRead.ChdFile.Entry` | src/libchdr_chd.c:3318-3325 | The same entry from the map in memory and from the lazy map, whatever was looked up before. |
| `HunkRead.ChdFile.ReadCoded` | src/libchdr_chd.c:3358-3420 | Read, codec and checksum errors in the source's order, or the decoded hunk. |
| `HunkRead.ChdFile.ReadPlain` | src/libchdr_chd.c:3422-3430 | An uncompressed hunk's bytes at the front of the buffer, the rest as it was, and the checksum over all of it. |
| `HunkRead.ChdFile.ReadUncompressedImage` | src/libchdr_chd.c:3328-3347 | The file's bytes, the parent's hunk, or zeros. |
| `HunkRead.ChdFile.ReadSelf` | src/libchdr_chd.c:3439-3452 | From the cache or decoded again, the contents of the target. |
| `HunkRead.ChdFile.ReadFromParent` | src/libchdr_chd.c:3455-3489 | The parent's hunk, or the halves of two. |
| `HunkRead.ChdFile.ReadStraddling` | src/libchdr_chd.c:3466-3487 | Both halves at their places in the caller's buffer. |
| `HunkRead.ChdFile.ReadHunk` | src/libchdr_chd.c:3309-3493 | In every reachable state, with the map in memory or lazy, the error or the bytes of the cache-free definition; parents and back-references end. |
| `HunkWriter.CodedIff` | src/libchdr_chd.c:3358-3420 | A hunk of type k below 4 reads as b exactly if codec k makes b of the bytes its entry names and b has the entry's checksum. |
| `HunkWriter.CodedErrors` | src/libchdr_chd.c:3358-3420 | Its errors: of the read, of a missing codec k, of codec k, of the checksum. |
| `HunkWriter.PlainIff` | src/libchdr_chd.c:3422-3430 | A plain hunk reads as b exactly if the file holds b, of a hunk's length and with the entry's checksum; a shorter one goes to the front of the buffer. |
| `HunkWriter.OtherErrors` | src/libchdr_chd.c:3432-3493 | References that do not go back, references to a missing parent, types that do not exist, hunks past the last. |
| `HunkWriter.ImageRoundTrip` | src/libchdr_chd.c:3309-3493 | Hunks packed for any codec, stored plain, as earlier hunks again or as data of the parent, all read back. |
| `HunkWriter.WrittenData` | src/libchdr_chd.c:3455-3487 | The data that children of a written image address is its hunks, one after the other. |
| `HunkWriter.ArchiveRoundTrip` | src/libchdr_chd.c:1195-1325 | The same with the entries in a compressed map. |
| `HunkWriter.ReadWritten` | src/libchdr_chd.c:3309-3493 | Reading a hunk of a written image delivers it, in every reachable state of the caches. |
| `HunkWriter.UncompressedReads` | src/libchdr_chd.c:3328-3347 | Without compression an entry is a place in hunks; 0 stands for the parent's hunk, or zeros. |
| `DeltaRle.TotalConcat` | src/libchdr_codec_avhuff.c:77-78 | Sums modulo 256 carry over from one piece to the next. |
| `DeltaRle.RowMeaning` | src/libchdr_codec_avhuff.c:64-85 | However planes are interleaved, each plane's samples are the partial sums of its own codes' differences; what these stand for beyond is zeros. |
| `DeltaRle.PictureMeaning` | src/libchdr_codec_avhuff.c:331-354 | A plane of a whole picture is the partial sums of its differences, runs cut off at the end of each row, sums carried across rows. |
| `DeltaRleWriter.RunTable` | src/libchdr_codec_avhuff.c:53-60 | The sixteen run codes stand for 8 to 15 and for 16 to 2048 samples. |
| `DeltaRleWriter.PlaneRoundTrip` | src/libchdr_codec_avhuff.c:64-85 | A plane in differences and run codes comes back by expansion and partial sums. |
| `AvHuffVideo.DecodeDelta` | src/libchdr_codec_avhuff.c:64-85 | One sample: pending run, difference or new run. |
| `AvHuffVideo.PairTicks` | src/libchdr_codec_avhuff.c:336-347 | Two pixels are four samples, of Y, Cb, Y and Cr. |
| `AvHuffVideo.ImportTree` | src/libchdr_codec_avhuff.c:320-322 | One tree and the step to the next byte, decided by the data alone. |
| `AvHuffVideo.AvHuffCodec.ImportTrees` | src/libchdr_codec_avhuff.c:317-328 | The three trees one after the other; the first that fails decides. |
| `AvHuffVideo.AvHuffCodec.DecodeRow` | src/libchdr_codec_avhuff.c:335-348 | A row's bytes at their place, nothing else changed. |
| `AvHuffVideo.AvHuffCodec.DecodeRows` | src/libchdr_codec_avhuff.c:330-362 | All rows at their places and nothing else changed; accepted exactly when the stream ends with the data. |
| `AvHuffVideo.AvHuffCodec.DecodeVideoLossless` | src/libchdr_codec_avhuff.c:304-363 | Refused if a tree is, or the stream does not end with the data; otherwise every row at its place. Bytes outside the rows stay as they were, and all of them if a tree is refused. |
| `AvHuffWriter.SampleReads` | src/libchdr_codec_avhuff.c:64-85 | The next sample of a plane comes back from its difference or run. |
| `AvHuffWriter.PairReads` | src/libchdr_codec_avhuff.c:336-347 | A pair of pixels, written as Y, Cb, Y and Cr, comes back in that order. |
| `AvHuffWriter.PictureReads` | src/libchdr_codec_avhuff.c:330-354 | However its planes are cut into codes, row by row, a picture comes back; a last run may be longer than its row. |
| `AvHuffStream.TreesRead` | src/libchdr_codec_avhuff.c:317-328 | The trees of Y, Cb and Cr, each up to a byte boundary, are imported in that order. |
| `AvHuffStream.StreamRoundTrip` | src/libchdr_codec_avhuff.c:304-363 | A whole written stream is accepted and gives every row back. |
| `AvHuffStream.AnyPicture` | src/libchdr_codec_avhuff.c:304-363 | Every picture can be written. |
| `AvHuffStream.DecodeWritten` | src/libchdr_codec_avhuff.c:304-363 | The decoder accepts what was written and delivers row k at byte 2 * width * k of the destination. |

## Left out

- Input and output callbacks, opening and closing, header fields, metadata, error strings: plumbing.
- Allocation failures, except that the self-reference cache may stay without memory. Failing file reads, except
  those of windows, chunks, the read-ahead refill and precaching: others fail exactly past the end of the file.
- `V5MapLowRam.LowRamMap.GetEntry`: does not say what resuming from a cache that is not current reads, which is
  freed memory. Its blob is readable in full; the header check at src/libchdr_chd.c:1165 does not account for
  the 16 bytes before it. The branch for images without compression, a plain read of 4 bytes, is not modelled.
- `V5MapFull.DecompressV5Map`: with the one-level table nothing is claimed about maps in which pass 1 meets an
  unassigned code, as the table then shows whatever its memory held. Once that happens the success flag and the
  entries are both open.
- `V5MapAgreement.BuildAgreesIff`: compares the passes hunk by hunk. A build that disagrees on some hunk may
  still give the right verdict, as checksums can collide.
- `BitstreamModule.Bitstream.Peek`: the byte counter is unbounded; the source keeps it in 32 bits.
- `HuffmanDecoderModule.HuffmanDecoder.AssignCanonicalCodes`: sums of code counts are unbounded; they stay below
  2^32 for the at most 2048 symbols of at most 24 bits that the model admits.
- `HuffmanDecoderModule.HuffmanDecoder.BuildTwoLevelTable`: second-level tables are a list of blocks; the flat
  arena that `realloc` grows is not modelled.
- `SelfCacheModule.SelfCache.Store`: slots are a list of byte strings; the flat buffer is not modelled.
- `ReadAhead.FileReader.ReadCompressed`: returns the bytes; the shared buffer they are copied to, and the
  counters of hits and misses, are not modelled.
- `HunkRead.ChdFile.ReadHunk`: requires what would otherwise be undefined in the source: parents with hunks of
  the same size, and a number of units that is not zero modulo 256, by which the source divides. The windows of
  a lazy map can be read. Where the source writes less than a hunk, in hunks of 2^24 bytes or more and in parent
  references without whole units, a successful read delivers the bytes written and the checksum, and the outcome
  is open. Versions 1 to 4 are not modelled.
- `HunkRead.ChdFile.Precache`: between reads only for images in which no map entry can tell; otherwise before
  the first read.
- `CdFramesLayouts.DecompressInPlace`: says nothing about the destination after an error; subcode and raw
  sectors are always wanted.
- `AvHuffVideo.AvHuffCodec.DecodeVideoLossless`: audio and the stream's header are not modelled. With one-level
  tables nothing is claimed once a sample needs an unassigned code.
- `huffman_import_tree_huffman`, `huffman_build_tree`, `huffman_compute_tree_from_histo`: never reached, or used
  by encoders only.
- `cdfl_codec_decompress`: its frame spread repeats the one modelled.
- Codec internals (deflate, LZMA, zstd, FLAC).
