/** The final table layout: finished blocks back to back, then the index,
    its length, the index checksum and its length. */
module TableLayout {
  import opened Encoding
  import opened BuilderModel

  /** What Done hands out: the blocks, the serialised index and its checksum,
      the uint32 sum of the block lengths and the total size. */
  datatype BuildData = BuildData(
    blockList: seq<BlockState>,
    index: seq<byte>,
    checksum: seq<byte>,
    dataSize: int,
    size: int)

  const EmptyBuildData: BuildData := BuildData([], [], [], 0, 0)

  /** Sum of the block lengths, in exact arithmetic. */
  function DataSize(blocks: seq<BlockState>): nat
  {
    if |blocks| == 0 then 0
    else DataSize(blocks[..|blocks| - 1]) + |blocks[|blocks| - 1].bytes|
  }

  /** The blocks' bytes back to back. */
  function Concat(blocks: seq<BlockState>): (r: seq<byte>)
    ensures |r| == DataSize(blocks)
  {
    if |blocks| == 0 then []
    else Concat(blocks[..|blocks| - 1]) + blocks[|blocks| - 1].bytes
  }

  /** The logical content of one block descriptor in the index. */
  datatype BlockOffset = BlockOffset(key: seq<byte>, maxKey: seq<byte>, offset: u32, len: u32)

  /** The descriptor of every block: keys, the uint32 running start offset
      and the uint32 length. */
  function BlockOffsets(blocks: seq<BlockState>): (r: seq<BlockOffset>)
    ensures |r| == |blocks|
  {
    seq(|blocks|, i requires 0 <= i < |blocks| =>
      BlockOffset(blocks[i].baseKey, blocks[i].maxKey,
                  Wrap32(DataSize(blocks[..i])), Wrap32(|blocks[i].bytes|)))
  }

  /** Done's result for a non-empty block list. */
  function MakeBuildData(blocks: seq<BlockState>, index: seq<byte>, checksum: seq<byte>): BuildData
  {
    var dataSize := Wrap32(DataSize(blocks));
    BuildData(blocks, index, checksum, dataSize, dataSize + |index| + |checksum| + 4 + 4)
  }

  /** What the serialised index records: the block descriptors and the
      builder's counters. The index encoding itself (and the bloom filters it
      embeds) is a parameter of Done. */
  datatype IndexInfo = IndexInfo(
    offsets: seq<BlockOffset>,
    maxVersion: u64,
    uncompressedSize: u32,
    onDiskSize: u32,
    staleDataSize: u32)

  /** The on-disk size once Done has added the filter size and the uint32
      data size to it. */
  function OnDiskSizeAfterDone(s: BuilderState, filterSize: u32): u32
  {
    Wrap32(Wrap32(s.onDiskSize + filterSize) + Wrap32(DataSize(s.blockList)))
  }

  function IndexInfoOf(s: BuilderState, filterSize: u32): IndexInfo
  {
    IndexInfo(BlockOffsets(s.blockList), s.maxVersion, s.uncompressedSize,
              OnDiskSizeAfterDone(s, filterSize), Wrap32(s.staleDataSize))
  }

  /** Done's result: nothing when no block was finished, otherwise the blocks,
      the index built from the descriptors and counters, and its checksum. */
  function DoneSpec(cfg: Config, s: BuilderState, filterSize: u32, encodeIndex: IndexInfo -> seq<byte>): BuildData
  {
    if |s.blockList| == 0 then EmptyBuildData
    else
      var index := encodeIndex(IndexInfoOf(s, filterSize));
      MakeBuildData(s.blockList, index, cfg.checksumOf(index))
  }

  /** The bytes Copy writes when the destination is large enough. */
  function TableBytes(bd: BuildData): seq<byte>
  {
    Concat(bd.blockList) + bd.index + U32Bytes(Wrap32(|bd.index|)) +
    bd.checksum + U32Bytes(Wrap32(|bd.checksum|))
  }

  lemma DataSizeStep(blocks: seq<BlockState>, i: nat)
    requires i < |blocks|
    ensures DataSize(blocks[..i + 1]) == DataSize(blocks[..i]) + |blocks[i].bytes|
  {
    assert blocks[..i + 1][..i] == blocks[..i];
  }

  /** Block `i` occupies the bytes from the sum of the earlier blocks' lengths
      on in the concatenation. */
  lemma {:induction false} BlockAt(blocks: seq<BlockState>, i: nat)
    requires i < |blocks|
    ensures DataSize(blocks[..i]) + |blocks[i].bytes| <= DataSize(blocks)
    ensures Concat(blocks)[DataSize(blocks[..i])..DataSize(blocks[..i]) + |blocks[i].bytes|] == blocks[i].bytes
  {
    var last := |blocks| - 1;
    var init := blocks[..last];
    if i == last {
      assert blocks[..i] == init;
    } else {
      BlockAt(init, i);
      assert init[..i] == blocks[..i];
      assert init[i] == blocks[i];
      var a := DataSize(blocks[..i]);
      var b := a + |blocks[i].bytes|;
      assert Concat(blocks) == Concat(init) + blocks[last].bytes;
      assert Concat(blocks)[a..b] == Concat(init)[a..b];
    }
  }

  /** The total size is never more than the bytes Copy would write, and is
      exactly their number while the block data stays below 4 GiB (the
      uint32 data size does not wrap). */
  lemma BuildDataSize(blocks: seq<BlockState>, index: seq<byte>, checksum: seq<byte>)
    ensures var bd := MakeBuildData(blocks, index, checksum);
            bd.size <= |TableBytes(bd)| &&
            (DataSize(blocks) < TwoTo32 ==>
               bd.dataSize == DataSize(blocks) && bd.size == |TableBytes(bd)|)
  {
  }

  /** The table bytes start with the blocks' bytes. */
  lemma TableBytesPrefix(bd: BuildData)
    ensures var d := Concat(bd.blockList);
            |d| <= |TableBytes(bd)| && TableBytes(bd)[..|d|] == d
  {
  }

  lemma SliceWithinPrefix(t: seq<byte>, d: seq<byte>, a: nat, b: nat)
    requires |d| <= |t| && t[..|d|] == d && a <= b <= |d|
    ensures t[a..b] == d[a..b]
  {
    forall k | 0 <= k < b - a
      ensures t[a..b][k] == d[a..b][k]
    {
      assert t[..|d|][a + k] == t[a + k];
    }
  }

  /** The index descriptors locate the blocks: in the table bytes, a block's
      descriptor offset and length select exactly that block's bytes. */
  lemma OffsetsLocateBlocks(blocks: seq<BlockState>, index: seq<byte>, checksum: seq<byte>, i: nat)
    requires i < |blocks| && DataSize(blocks) < TwoTo32
    ensures var o := BlockOffsets(blocks)[i];
            var t := TableBytes(MakeBuildData(blocks, index, checksum));
            o.key == blocks[i].baseKey && o.maxKey == blocks[i].maxKey &&
            o.offset + o.len <= |t| && t[o.offset..o.offset + o.len] == blocks[i].bytes
  {
    BlockAt(blocks, i);
    var o := BlockOffsets(blocks)[i];
    var a := DataSize(blocks[..i]);
    assert o.offset == a && o.len == |blocks[i].bytes|;
    var bd := MakeBuildData(blocks, index, checksum);
    TableBytesPrefix(bd);
    SliceWithinPrefix(TableBytes(bd), Concat(blocks), a, a + |blocks[i].bytes|);
  }

  /** A descriptor's fields are the exact start and length of its block while
      the block data stays below 4 GiB. */
  lemma OffsetExact(blocks: seq<BlockState>, i: nat)
    requires i < |blocks| && DataSize(blocks) < TwoTo32
    ensures BlockOffsets(blocks)[i].offset == DataSize(blocks[..i])
    ensures BlockOffsets(blocks)[i].len == |blocks[i].bytes|
  {
    BlockAt(blocks, i);
    PrefixDataSize(blocks, i);
  }

  /** The start offsets are the running sums of the block lengths: the first
      block starts at 0 and each next block where the previous one ends. */
  lemma StartOffsetsAccumulate(blocks: seq<BlockState>, i: nat)
    requires i + 1 < |blocks| && DataSize(blocks) < TwoTo32
    ensures BlockOffsets(blocks)[0].offset == 0
    ensures BlockOffsets(blocks)[i + 1].offset == BlockOffsets(blocks)[i].offset + BlockOffsets(blocks)[i].len
  {
    assert blocks[..0] == [];
    OffsetExact(blocks, i);
    OffsetExact(blocks, i + 1);
    DataSizeStep(blocks, i);
  }

  lemma {:induction false} PrefixDataSize(blocks: seq<BlockState>, j: nat)
    requires j <= |blocks|
    ensures DataSize(blocks[..j]) <= DataSize(blocks)
  {
    if j < |blocks| {
      var init := blocks[..|blocks| - 1];
      PrefixDataSize(init, j);
      assert init[..j] == blocks[..j];
    } else {
      assert blocks[..j] == blocks;
    }
  }

  /** Done adds the filter size and the data size to the on-disk size, as one
      uint32 sum. */
  lemma OnDiskSizeAccumulates(s: BuilderState, filterSize: u32)
    ensures OnDiskSizeAfterDone(s, filterSize) == Wrap32(s.onDiskSize + filterSize + DataSize(s.blockList))
  {
    var a := s.onDiskSize + filterSize;
    var d := DataSize(s.blockList);
    Wrap32Add(a, Wrap32(d));
    Wrap32Add(d, a);
  }

  /** The size Done reports is never more than the bytes Copy produces, so a
      buffer of that size is always filled completely; it is 0 without
      blocks, and exactly the table's length while the block data stays
      below 4 GiB. */
  lemma DoneSizeFits(cfg: Config, s: BuilderState, filterSize: u32, encodeIndex: IndexInfo -> seq<byte>)
    ensures var bd := DoneSpec(cfg, s, filterSize, encodeIndex);
            0 <= bd.size <= |TableBytes(bd)| &&
            (|s.blockList| == 0 ==> bd.size == 0) &&
            (DataSize(s.blockList) < TwoTo32 && |s.blockList| > 0 ==> bd.size == |TableBytes(bd)|)
  {
    if |s.blockList| > 0 {
      var index := encodeIndex(IndexInfoOf(s, filterSize));
      BuildDataSize(s.blockList, index, cfg.checksumOf(index));
    }
  }

  /** What a reader finds at the end of a table. */
  datatype TableFooter = TableFooter(dataEnd: nat, index: seq<byte>, checksum: seq<byte>)

  /** Reads a table from its tail: checksum length, checksum, index length and
      index. */
  function ParseTableFooter(t: seq<byte>): Option<TableFooter>
  {
    if |t| < 4 then None
    else
      var csLen := DecodeU32(t[|t| - 4..]);
      if |t| < 8 + csLen then None
      else
        var csStart := |t| - 4 - csLen;
        var indexLen := DecodeU32(t[csStart - 4..csStart]);
        if csStart < 4 + indexLen then None
        else
          var indexStart := csStart - 4 - indexLen;
          Some(TableFooter(indexStart, t[indexStart..csStart - 4], t[csStart..|t| - 4]))
  }

  lemma FooterParses(d: seq<byte>, index: seq<byte>, checksum: seq<byte>)
    requires |index| < TwoTo32 && |checksum| < TwoTo32
    ensures ParseTableFooter(d + index + U32Bytes(|index|) + checksum + U32Bytes(|checksum|))
            == Some(TableFooter(|d|, index, checksum))
  {
    var t := d + index + U32Bytes(|index|) + checksum + U32Bytes(|checksum|);
    assert t[|t| - 4..] == U32Bytes(|checksum|);
    U32RoundTrip(|checksum|);
    var csStart := |t| - 4 - |checksum|;
    assert t[csStart - 4..csStart] == U32Bytes(|index|);
    U32RoundTrip(|index|);
    assert t[csStart - 4 - |index|..csStart - 4] == index;
    assert t[csStart..|t| - 4] == checksum;
  }

  /** The table bytes read back from the tail give the index, its checksum
      and where the block data ends. */
  lemma TableFooterParses(blocks: seq<BlockState>, index: seq<byte>, checksum: seq<byte>)
    requires |index| < TwoTo32 && |checksum| < TwoTo32
    ensures var t := TableBytes(MakeBuildData(blocks, index, checksum));
            ParseTableFooter(t) == Some(TableFooter(DataSize(blocks), index, checksum)) &&
            t[..DataSize(blocks)] == Concat(blocks)
  {
    var bd := MakeBuildData(blocks, index, checksum);
    assert TableBytes(bd) == Concat(blocks) + index + U32Bytes(|index|) + checksum + U32Bytes(|checksum|);
    FooterParses(Concat(blocks), index, checksum);
    TableBytesPrefix(bd);
  }
}
