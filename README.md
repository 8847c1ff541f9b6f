# HAKES table builder, modelled in Dafny

This project models the SSTable table builder of HAKES-store
(`hakes-store/hakes-store/table/builder.go`) and proves what it does. The
builder takes a stream of keys and values and writes them into blocks.
Each entry is a 4-byte header, the key's suffix after the prefix it shares
with the block's base key, and the encoded value. When the size estimate
says the open block is full, the builder finishes it: it appends the
entry-offset table, the entry count, a checksum and the checksum's length,
records the block's max key, and adds the block to the block list. At the
end, `Done` reports the block descriptors (start offset and length of
every block), the index, its checksum and the total size. `Copy` lays
everything out back to back.

Modules:

- `Encoding` (`encoding.dfy`) holds the fixed-width integer types and uint32
  wrap-around (`Wrap32`). It also holds the byte encodings the builder
  writes, each with its decoder:
  - the entry header, two 16-bit fields in little-endian host layout;
  - `y.U32ToBytes`, big-endian;
  - `y.U32SliceToBytes`, the offset array in little-endian host layout.
- `BuilderModel` (`builder_model.dfy`) is the builder as a state machine
  over values. `BuilderState` mirrors the `Builder` fields, and every
  operation is a function from the old state to the new one:
  `AddHelperSpec`, `FinishBlockSpec`, `ShouldFinishBlock`,
  `AddInternalSpec` and `FinalizeSpec`. When one of the source's fatal
  `y.AssertTrue` checks fails, the result is flagged: a `Step` with
  `ok == false`, or `Checked.AssertionFailed`.
- `TableLayout` (`table_layout.dfy`) holds the final layout:
  - the block descriptors (`BlockOffsets`) and `Done`'s result
    (`DoneSpec`, `MakeBuildData`);
  - the bytes `Copy` produces (`TableBytes`);
  - a reader for the table footer.
- `BuilderProperties` (`builder_properties.dfy`) holds lemmas about the
  model:
  - entry decoding and prefix compression;
  - the 16-bit assertions and ordered entry offsets;
  - the effects of finishing a block and the block trailer read back;
  - the max key and the block-closing decision;
  - the block-size bound and a non-decreasing capacity estimate.
- `TableBuilder` (`builder.dfy`) is the imperative builder.
  - `Builder` and `Block` are classes with the source's fields. The open
    block's buffer is an `array<byte>` that `Allocate` regrows.
  - `KeyDiff`, `WriteBlockOffsets` and `Copy` are loops like the source's.
  - Every method is proved to change the state exactly as the model says.
    For example, `Builder.AddHelper` ensures
    `Step(State(), ok) == AddHelperSpec(cfg, old(State()), ...)`.
- `Scenario` (`scenario.dfy`) is a worked example: the keys `a1`, `a2` and
  `b1` with a 45-byte block size split into two blocks. The first has base
  key `a1` and max key `a2`; the second has base and max key `b1`.

The builder calls several collaborators whose code is not part of this
model. They are fields of `Config` or parameters:
- the filter key hash (`y.Hash(y.ParseKey(key))`) is `keyHash`;
- the version parser (`y.ParseTs`) is `parseTs`;
- the serialised CRC32C checksum (`calculateChecksum`) is `checksumOf`;
- the value encoding is the `encoded` bytes of a `ValueStruct`;
- the Flatbuffers index encoder is the `encodeIndex` parameter of `Done`;
- the total bloom filter size is the `filterSize` parameter of `Done`;
- `tableCapacity` is a given number.

Finalize is not idempotent. `finishBlock` returns early only when
`entryOffsets` is empty (builder.go:286-288), and nothing clears it, so a
second `Finalize` seals the same block again and appends it to `blockList`
again (builder.go:305). The model follows the code;
`FinishBlockTwiceAppendsTwice` states this.

## Model

| member | source | states |
|---|---|---|
| Encoding.Wrap32 | hakes-store/hakes-store/table/builder.go:257 | uint32 conversion: the value itself below 2^32, never more than the value |
| Encoding.EncodeHeader | hakes-store/hakes-store/table/builder.go:52-64 | the header is exactly 4 bytes, overlap in bytes 0-1 and diff in bytes 2-3, low byte first |
| Encoding.DecodeHeader | hakes-store/hakes-store/table/builder.go:66-69 | the header read from the first 4 bytes encodes back to exactly those 4 bytes, so decoding is the inverse of encoding |
| Encoding.HeaderRoundTrip | hakes-store/hakes-store/table/builder.go:52-69 | decoding an encoded header gives back the same overlap and diff |
| Encoding.U32Bytes | hakes-store/hakes-store/table/builder.go:297 | a uint32 length field is 4 bytes |
| Encoding.U32BytesDecode | hakes-store/hakes-store/table/builder.go:297 | every 4-byte field is the encoding of the value read from it |
| Encoding.U32RoundTrip | hakes-store/hakes-store/table/builder.go:297 | a 4-byte length field reads back as the value written |
| Encoding.U32LeBytes | hakes-store/hakes-store/table/builder.go:296 | one entry offset takes 4 bytes |
| Encoding.U32LeBytesDecode | hakes-store/hakes-store/table/builder.go:296 | every 4 bytes are the encoding of the offset read from them |
| Encoding.U32LeRoundTrip | hakes-store/hakes-store/table/builder.go:296 | one entry offset reads back as written |
| Encoding.U32SliceBytes | hakes-store/hakes-store/table/builder.go:296 | the offset table is 4 bytes per offset |
| Encoding.U32SliceRoundTrip | hakes-store/hakes-store/table/builder.go:296 | the offset table reads back as the exact list of offsets |
| BuilderModel.SharedPrefixLength | hakes-store/hakes-store/table/builder.go:220-228 | the shared prefix is no longer than either key |
| BuilderModel.SharedPrefixLengthMaximal | hakes-store/hakes-store/table/builder.go:220-228 | the two keys agree on the shared prefix, and it cannot be extended: one key ends or the next bytes differ |
| BuilderModel.SharedPrefixLengthUnique | hakes-store/hakes-store/table/builder.go:220-228 | any maximal common prefix length is the one computed |
| BuilderModel.DiffKey | hakes-store/hakes-store/table/builder.go:237-246 | the stored part of a key is a suffix of it |
| BuilderModel.DiffKeyReconstructs | hakes-store/hakes-store/table/builder.go:237-254 | the base key's first overlap bytes followed by the stored suffix give back the key; a key added with no base key becomes the base key and is stored whole; otherwise the overlap is the maximal shared prefix |
| BuilderModel.RoundUp4 | hakes-store/hakes-store/table/builder.go:315 | the base key length rounded up to the next multiple of 4 |
| BuilderModel.ShouldFinishBlock | hakes-store/hakes-store/table/builder.go:323-342 | false for an empty block; for a non-empty block whose exact estimate end + 6 + key length + value size + (n+1)*4 + 16 is below 2^32, fails the overflow assertion exactly when end plus that estimate reaches 2^32-1; while end plus the estimate is below 2^32-1 and the block size fits in 32 bits, true iff the estimate exceeds the block size |
| BuilderModel.AddHelperKeepsWF | hakes-store/hakes-store/table/builder.go:230-271 | after an add, the remembered overlap is within the base key, so the max key can be rebuilt |
| BuilderModel.FinishBlockKeepsWF | hakes-store/hakes-store/table/builder.go:285-321 | finishing a block keeps that invariant |
| BuilderModel.AddInternalKeepsWF | hakes-store/hakes-store/table/builder.go:358-371 | Add and AddStaleKey keep that invariant |
| BuilderProperties.AddHelperEntryDecodes | hakes-store/hakes-store/table/builder.go:256-266 | the entry starts at the old end, and the earlier bytes are unchanged; the header decodes to overlap + diff == key length; the header is followed by the stored suffix and the encoded value; the base key prefix plus the suffix is the key; the old end is appended to the offsets |
| BuilderProperties.AddHelperPrefixRule | hakes-store/hakes-store/table/builder.go:237-246 | the first key of a block becomes its base key with overlap 0; a later key leaves the base key unchanged and is stored after its maximal shared prefix |
| BuilderProperties.AddHelperAssertion | hakes-store/hakes-store/table/builder.go:248-254 | the add succeeds iff overlap and diff both fit in 16 bits; a key of at most 65535 bytes always succeeds; a failed add writes nothing into the block |
| BuilderProperties.AddHelperKeepsOffsetsOrdered | hakes-store/hakes-store/table/builder.go:256-257 | entry offsets stay strictly increasing and below end while the block is under 4 GiB |
| BuilderProperties.FinishBlockEffects | hakes-store/hakes-store/table/builder.go:285-321 | no change without entries; otherwise the block is appended exactly once and keeps its entries, and it grows by offsets, count, checksum and length; uncompressedSize grows by the block's length; lenOffsets grows by 4*ceil(len(baseKey)/4) + 40; nothing else changes |
| BuilderProperties.FinishBlockTwiceAppendsTwice | hakes-store/hakes-store/table/builder.go:285-321 | finishing an already finished block appends it again |
| BuilderProperties.TrailerParsesFrom | hakes-store/hakes-store/table/builder.go:295-303 | entries, offset table, count, checksum and checksum length read back from the tail |
| BuilderProperties.TrailerParses | hakes-store/hakes-store/table/builder.go:295-303 | the same for the offset table the builder encodes |
| BuilderProperties.FinishBlockTrailerParses | hakes-store/hakes-store/table/builder.go:285-306 | a finished block read from its tail gives the end of the entries, the exact entry offsets, and the checksum of every byte before the checksum |
| BuilderProperties.FinishedBlockMaxKeyIsLastKey | hakes-store/hakes-store/table/builder.go:262-263 | the max key a block is finished with is the last key added to it |
| BuilderProperties.AddInternalClosesBlock | hakes-store/hakes-store/table/builder.go:358-371 | when the estimate says full, the sealed block is appended and a fresh block holds the new entry as its first, with the key as base key |
| BuilderProperties.AddInternalKeepsBlock | hakes-store/hakes-store/table/builder.go:358-371 | when the entry fits, the block list is unchanged and the entry goes into the open block |
| BuilderProperties.SealKeepsWithinSize | hakes-store/hakes-store/table/builder.go:285-306 | a block with room for its trailer stays within the block size once sealed |
| BuilderProperties.AddInternalKeepsBlocksWithinSize | hakes-store/hakes-store/table/builder.go:323-371 | every finished block is within the block size unless it holds a single entry |
| BuilderProperties.FinishBlockKeepsBlocksWithinSize | hakes-store/hakes-store/table/builder.go:285-321 | finishing the last block keeps that bound |
| BuilderProperties.AddInternalGrowsEstimate | hakes-store/hakes-store/table/builder.go:391-408 | without compression, the capacity estimate never decreases as entries are added, so once reached it stays reached (no uint32 wrap assumed) |
| TableLayout.Concat | hakes-store/hakes-store/table/builder.go:442-444 | the blocks' bytes back to back are as long as the sum of the block lengths |
| TableLayout.BlockOffsets | hakes-store/hakes-store/table/builder.go:605-635 | one descriptor per block |
| TableLayout.BlockAt | hakes-store/hakes-store/table/builder.go:442-444 | each block's bytes sit in the concatenation at the sum of the earlier blocks' lengths |
| TableLayout.BuildDataSize | hakes-store/hakes-store/table/builder.go:512-513 | the reported size never exceeds the bytes Copy produces, and equals them while the data size does not wrap |
| TableLayout.TableBytesPrefix | hakes-store/hakes-store/table/builder.go:440-451 | the table starts with the blocks' bytes |
| TableLayout.OffsetsLocateBlocks | hakes-store/hakes-store/table/builder.go:605-635 | a descriptor's offset and length select exactly its block's bytes in the table, and its keys are the block's base and max key |
| TableLayout.OffsetExact | hakes-store/hakes-store/table/builder.go:609-613 | the start offset is the sum of the earlier blocks' lengths and the length is the block's length (no wrap) |
| TableLayout.StartOffsetsAccumulate | hakes-store/hakes-store/table/builder.go:605-616 | the first block starts at 0 and each block starts where the previous one ends |
| TableLayout.OnDiskSizeAccumulates | hakes-store/hakes-store/table/builder.go:585-586 | the on-disk size grows by filter size plus data size, as one uint32 sum |
| TableLayout.DoneSizeFits | hakes-store/hakes-store/table/builder.go:490-515 | Done's size is 0 without blocks, never exceeds the bytes Copy produces, and equals them without wrap |
| TableLayout.FooterParses | hakes-store/hakes-store/table/builder.go:445-449 | index, its length, checksum and its length read back from the tail |
| TableLayout.TableFooterParses | hakes-store/hakes-store/table/builder.go:440-451 | a table read from its tail gives the index, its checksum and the end of the block data, and the bytes before that are the blocks |
| TableBuilder.CopyInto | hakes-store/hakes-store/table/builder.go:443 | Go's copy: copies min(len(src), room) bytes at the position and leaves the rest of the destination alone |
| TableBuilder.CopyAppend | hakes-store/hakes-store/table/builder.go:443-449 | one `written += copy(dst[written:], piece)` step keeps dst holding as much of the output as fits |
| TableBuilder.Block.constructor | hakes-store/hakes-store/table/builder.go:367-369 | a new block is empty, with a fresh buffer of the requested size |
| TableBuilder.Builder.constructor | hakes-store/hakes-store/table/builder.go:149-165 | the builder starts in the initial state with a block buffer of block size plus 256 bytes |
| TableBuilder.Builder.Allocate | hakes-store/hakes-store/table/builder.go:120-138 | end advances by exactly need and the region starts at the old end; bytes before the old end are kept; the buffer is kept when there is room, otherwise it is a fresh one of max(min(2*len, 2^30), end+need) bytes |
| TableBuilder.Builder.Append | hakes-store/hakes-store/table/builder.go:140-144 | the block's bytes become the old bytes followed by the data; the copy assertion holds |
| TableBuilder.Builder.KeyDiff | hakes-store/hakes-store/table/builder.go:220-228 | the result is the new key after its maximal prefix shared with the base key |
| TableBuilder.Builder.RecordKey | hakes-store/hakes-store/table/builder.go:230-246 | the key hash is appended, the max version updated, an empty base key set to the key, and the stored suffix returned |
| TableBuilder.Builder.AppendEntry | hakes-store/hakes-store/table/builder.go:256-266 | the old end is appended to the offsets; header, suffix and encoded value are appended; the last key is set |
| TableBuilder.Builder.AddHelper | hakes-store/hakes-store/table/builder.go:230-271 | moves the state exactly as AddHelperSpec, including the failed-assertion case |
| TableBuilder.Builder.SealCurBlock | hakes-store/hakes-store/table/builder.go:290-303 | the open block becomes its sealed form: max key, offsets, count, checksum and its length |
| TableBuilder.Builder.FinishBlock | hakes-store/hakes-store/table/builder.go:285-321 | moves the state exactly as FinishBlockSpec |
| TableBuilder.Builder.AddInternal | hakes-store/hakes-store/table/builder.go:358-371 | moves the state exactly as AddInternalSpec, with a fresh block after a finish |
| TableBuilder.Builder.Add | hakes-store/hakes-store/table/builder.go:353-356 | an add that is not stale |
| TableBuilder.Builder.AddStaleKey | hakes-store/hakes-store/table/builder.go:344-351 | the stale estimate len(key)+len(value)+8 is added first, then a stale add |
| TableBuilder.Builder.Finalize | hakes-store/hakes-store/table/builder.go:480-487 | finishes the open block and drops the key hashes |
| TableBuilder.Builder.ReachedCapacity | hakes-store/hakes-store/table/builder.go:391-408 | true iff the finished size (compressed size when compression is on) plus 4 per open entry plus 20 plus lenOffsets exceeds the capacity (no wrap) |
| TableBuilder.Builder.WriteBlockOffsets | hakes-store/hakes-store/table/builder.go:605-616 | returns exactly the block descriptors and the uint32 sum of the block lengths |
| TableBuilder.Builder.Done | hakes-store/hakes-store/table/builder.go:490-515 | an empty result without blocks; otherwise the blocks, the index of the descriptors and counters, its checksum and the size; on-disk size updated |
| TableBuilder.Builder.Finish | hakes-store/hakes-store/table/builder.go:422-428 | the buffer has Done's size and holds the table's bytes; the copy fills it, so the assertion holds |
| TableBuilder.Copy | hakes-store/hakes-store/table/builder.go:440-451 | writes min(len(dst), table length) bytes, and they are the table's first bytes |
| Scenario.FirstKey | hakes-store/hakes-store/table/builder.go:230-271 | the first key is stored whole as the base key |
| Scenario.SecondKey | hakes-store/hakes-store/table/builder.go:323-371 | a key that fits is stored after its one-byte shared prefix |
| Scenario.SealFirst | hakes-store/hakes-store/table/builder.go:285-306 | the exact bytes and max key of the sealed first block |
| Scenario.ThirdKey | hakes-store/hakes-store/table/builder.go:323-371 | a key that does not fit closes the block and starts the next |
| Scenario.FinalizeRun | hakes-store/hakes-store/table/builder.go:480-487 | Finalize seals the second block with max key equal to its base key |
| Scenario.RunLayout | hakes-store/hakes-store/table/builder.go:605-616 | block offsets 0 and 27, lengths 27 and 18, table size 53 |

## Left out

- Compression pipeline (the `blockChan` workers, `handleBlock`, the wait group, `compressData` and the atomic `compressedSize`). It is concurrency and foreign compression libraries. `compressedSize` is an input of `ReachedCapacity`, and blocks keep their uncompressed bytes.
- `calculateChecksum` (CRC32C plus protobuf). It is foreign code and is the `checksumOf` field of `Config`. The size lemmas assume it is at most 8 bytes (`ChecksumFits`), as the source's estimates do.
- The Flatbuffers index (`buildIndex`, `writeBlockOffset`, `writeFilters`, `writeFilter`). It is a foreign library. Descriptors and counters are modelled as `IndexInfo`, and the encoder is the `encodeIndex` parameter of `Done`. The patch that adds the index's own length to its on-disk field belongs to that encoder.
- Bloom filters (`appendFilter`). They involve a goroutine and a floating-point rate. `Done` takes the total filter size as `filterSize`, and `Finalize` only drops the key hashes. `filterList`, which `appendFilter` fills and `Done` hands to `buildIndex`, belongs to this filter machinery and is not modelled either. `keyHashList` is never read after the constructor and is not modelled.
- `tableCapacity` is a parameter. The source computes it as `float64(TableSize) * 0.95`.
- The allocator pool, `Close`, `Empty`, `String`, `Opts`, `WriteTo` and `WriteToCSSF` are plumbing and I/O. `Finalize`'s `depleteBA` flag does nothing and is dropped. The block `id` is always empty and is not modelled, and neither is `shadow`.
- Value encoding. `v.EncodedSize`/`v.Encode` are the `encoded` bytes of a `ValueStruct`, and `v.Value` is kept only for the stale estimate.
- Go `int` is unbounded here (64-bit in the source). `uint32` arithmetic wraps explicitly through `Wrap32`.
- `y.U32ToBytes` is modelled big-endian. `y.U32SliceToBytes` and the header are modelled in the byte order of a little-endian host.
- TableBuilder.Builder.blockList: finished blocks are stored as values, not as pointers to the open block. In the source, `finishBlock` appends the `curBlock` pointer itself (builder.go:305) and keeps writing to it, so any later change to the open block after `Finalize` also changes the block already in `blockList`. Two such changes are a second `Finalize`, which seals it again and appends the same object twice, and an `Add` that does not close the block, which grows it through `addHelper` (builder.go:257-266) so that `Done` and `Copy` report and write the longer block. The model leaves the listed copy as it was when finished, and a second `Finalize` appends a second, longer copy.
- TableBuilder.Builder.Allocate: a regrown buffer starts zeroed, while the allocator's memory is unspecified. Every byte before the cursor is written before it is read.
- Decoding a whole block back into its key/value sequence is not modelled. The entry layout is proved per entry (`AddHelperEntryDecodes`), and the trailer per block (`FinishBlockTrailerParses`).
- AddInternalGrowsEstimate: covers only the estimate without compression (finished size `uncompressedSize`). With compression on, the estimate can fall when a block closes: `compressedSize` grows only when a worker finishes the block, while the open-block term of 4 bytes per entry drops back to one entry.
- AddInternalGrowsEstimate, AddInternalKeepsBlocksWithinSize and OffsetsLocateBlocks assume that no uint32 counter wraps. They are stated with that requirement.
