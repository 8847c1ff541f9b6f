/** The table builder as the source writes it: a Builder object that owns the
    open block (a growable byte buffer with a write cursor), appends entries
    to it in place and closes it into a list of finished blocks. Every method
    is proved to move the builder's state exactly as the value-level model
    in BuilderModel and TableLayout says. */
module TableBuilder {
  import opened Encoding
  import opened BuilderModel
  import opened TableLayout

  function Min(a: int, b: int): int
  {
    if a < b then a else b
  }

  function Max(a: int, b: int): int
  {
    if a < b then b else a
  }

  /** Go's copy(dst[at:], src): copies as many bytes of `src` as fit after
      position `at` and returns how many it copied. */
  method CopyInto(dst: array<byte>, at: nat, src: seq<byte>) returns (n: nat)
    requires at <= dst.Length
    modifies dst
    ensures n == Min(|src|, dst.Length - at)
    ensures dst[..at] == old(dst[..at])
    ensures dst[at + n..] == old(dst[at + n..])
    ensures dst[at..at + n] == src[..n]
  {
    n := Min(|src|, dst.Length - at);
    var k := 0;
    while k < n
      invariant 0 <= k <= n
      invariant forall j :: 0 <= j < at ==> dst[j] == old(dst[j])
      invariant forall j :: at + k <= j < dst.Length ==> dst[j] == old(dst[j])
      invariant forall j :: 0 <= j < k ==> dst[at + j] == src[j]
    {
      dst[at + k] := src[k];
      k := k + 1;
    }
  }

  /** One `written += copy(dst[written:], piece)` step: when the destination
      holds the first `written` bytes of `done` (all of them, or as many as
      fit), it then holds as many as fit of `done + piece`. */
  method CopyAppend(dst: array<byte>, written: nat, ghost done: seq<byte>, piece: seq<byte>) returns (w: nat)
    requires written == Min(dst.Length, |done|) && dst[..written] == done[..written]
    modifies dst
    ensures w == Min(dst.Length, |done + piece|)
    ensures dst[..w] == (done + piece)[..w]
  {
    var n := CopyInto(dst, written, piece);
    w := written + n;
    if n > 0 {
      assert written == |done|;
      forall j | 0 <= j < w
        ensures dst[..w][j] == (done + piece)[..w][j]
      {
        if j < written {
          assert dst[..written][j] == done[..written][j];
        } else {
          assert dst[written..written + n][j - written] == piece[..n][j - written];
        }
      }
    } else {
      assert dst[..w] == dst[..written];
    }
  }

  /** A block under construction: a buffer whose first `end` bytes are the
      block so far, the block's base key and max key, and where each entry
      starts. */
  class Block {
    var data: array<byte>
    var baseKey: seq<byte>
    var maxKey: seq<byte>
    var entryOffsets: seq<u32>
    var end: nat

    ghost predicate Valid()
      reads this
    {
      end <= data.Length
    }

    /** The block's value: the bytes up to the cursor and its keys and offsets. */
    function Value(): BlockState
      reads this, data
      requires Valid()
    {
      BlockState(data[..end], baseKey, maxKey, entryOffsets)
    }

    /** A block with no entries and a buffer of the given capacity. */
    constructor (capacity: nat)
      ensures Valid() && Value() == EmptyBlock
      ensures fresh(data) && data.Length == capacity
    {
      data := new byte[capacity];
      baseKey := [];
      maxKey := [];
      entryOffsets := [];
      end := 0;
    }
  }

  class Builder {
    const cfg: Config
    var curBlock: Block
    var blockList: seq<BlockState>
    var keyHashes: seq<u32>
    var uncompressedSize: u32
    var lenOffsets: u32
    var maxVersion: u64
    var onDiskSize: u32
    var staleDataSize: int
    var lastKey: KeyDiffCtx

    /** The builder's value in the model. */
    function State(): BuilderState
      reads this, curBlock, curBlock.data
      requires curBlock.Valid()
    {
      BuilderState(curBlock.Value(), blockList, keyHashes, uncompressedSize, lenOffsets,
                   maxVersion, onDiskSize, staleDataSize, lastKey)
    }

    ghost predicate Valid()
      reads this, curBlock, curBlock.data
    {
      curBlock.Valid() && WF(State())
    }

    /** A builder with an empty open block whose buffer has room for one block
        plus padding. */
    constructor (cfg: Config)
      ensures Valid() && this.cfg == cfg && State() == InitialState
      ensures fresh(curBlock) && fresh(curBlock.data)
      ensures curBlock.data.Length == cfg.blockSize + Padding
    {
      this.cfg := cfg;
      curBlock := new Block(cfg.blockSize + Padding);
      blockList := [];
      keyHashes := [];
      uncompressedSize := 0;
      lenOffsets := 0;
      maxVersion := 0;
      onDiskSize := 0;
      staleDataSize := 0;
      lastKey := KeyDiffCtx(0, []);
    }

    /** Reserves `need` bytes at the cursor and moves the cursor past them.
        When the free room is too small the buffer is replaced by one of
        twice the size (at most 1 GiB, but never less than what is needed)
        holding a copy of the old contents. */
    method Allocate(need: nat) returns (start: nat)
      requires curBlock.Valid()
      modifies curBlock
      ensures curBlock.Valid()
      ensures curBlock.data == old(curBlock.data) || fresh(curBlock.data)
      ensures start == old(curBlock.end) && curBlock.end == start + need
      ensures curBlock.data[..start] == old(curBlock.data[..curBlock.end])
      ensures old(curBlock.data.Length) - start >= need ==> curBlock.data == old(curBlock.data)
      ensures old(curBlock.data.Length) - start < need ==>
                fresh(curBlock.data) &&
                curBlock.data.Length == Max(Min(2 * old(curBlock.data.Length), MaxAllocation), start + need)
      ensures curBlock.baseKey == old(curBlock.baseKey) && curBlock.maxKey == old(curBlock.maxKey)
      ensures curBlock.entryOffsets == old(curBlock.entryOffsets)
    {
      var bb := curBlock;
      if bb.data.Length - bb.end < need {
        var sz := 2 * bb.data.Length;
        if sz > MaxAllocation {
          sz := MaxAllocation;
        }
        if bb.end + need > sz {
          sz := bb.end + need;
        }
        var tmp := new byte[sz];
        var n := CopyInto(tmp, 0, bb.data[..]);
        assert tmp[..bb.end] == tmp[0..n][..bb.end];
        bb.data := tmp;
      }
      start := bb.end;
      bb.end := bb.end + need;
    }

    /** Appends bytes at the cursor of the open block. */
    method Append(bytes: seq<byte>)
      requires curBlock.Valid()
      modifies curBlock, curBlock.data
      ensures curBlock.Valid()
      ensures curBlock.data == old(curBlock.data) || fresh(curBlock.data)
      ensures curBlock.Value() == old(curBlock.Value()).(bytes := old(curBlock.Value()).bytes + bytes)
    {
      var start := Allocate(|bytes|);
      var n := CopyInto(curBlock.data, start, bytes);
      assert n == |bytes|;
      assert curBlock.data[..curBlock.end] == curBlock.data[..start] + curBlock.data[start..start + n];
    }

    /** The suffix of `newKey` after the prefix it shares with the open
        block's base key. */
    method KeyDiff(newKey: seq<byte>) returns (diff: seq<byte>)
      ensures diff == newKey[SharedPrefixLength(newKey, curBlock.baseKey)..]
    {
      var i := 0;
      while i < |newKey| && i < |curBlock.baseKey|
        invariant 0 <= i <= |newKey| && i <= |curBlock.baseKey|
        invariant newKey[..i] == curBlock.baseKey[..i]
      {
        if newKey[i] != curBlock.baseKey[i] {
          break;
        }
        assert newKey[..i + 1] == newKey[..i] + [newKey[i]];
        assert curBlock.baseKey[..i + 1] == curBlock.baseKey[..i] + [curBlock.baseKey[i]];
        i := i + 1;
      }
      SharedPrefixLengthUnique(newKey, curBlock.baseKey, i);
      diff := newKey[i..];
    }

    /** Records where the entry starts and writes its header, the stored key
        suffix and the encoded value at the cursor; remembers the header's
        overlap and the stored suffix as the last key. */
    method AppendEntry(h: Header, diffKey: seq<byte>, encoded: seq<byte>)
      requires curBlock.Valid()
      modifies this`lastKey, curBlock, curBlock.data
      ensures curBlock.Valid()
      ensures curBlock.data == old(curBlock.data) || fresh(curBlock.data)
      ensures curBlock.Value() ==
              old(curBlock.Value()).(entryOffsets := old(curBlock.entryOffsets) + [Wrap32(old(curBlock.end))],
                                     bytes := old(curBlock.Value()).bytes + EncodeHeader(h) + diffKey + encoded)
      ensures lastKey == KeyDiffCtx(h.overlap, diffKey)
    {
      curBlock.entryOffsets := curBlock.entryOffsets + [Wrap32(curBlock.end)];
      ghost var before := curBlock.data[..curBlock.end];
      Append(EncodeHeader(h));
      Append(diffKey);
      assert curBlock.data[..curBlock.end] == before + EncodeHeader(h) + diffKey;
      lastKey := KeyDiffCtx(h.overlap, curBlock.data[curBlock.end - |diffKey|..curBlock.end]);
      assert lastKey.diff == (before + EncodeHeader(h) + diffKey)[|before| + HeaderSize..];
      Append(encoded);
    }

    /** The bookkeeping before an entry is written: the key's hash and
        version are recorded, a block without base key takes the key as its
        base key, and the part of the key that is stored is returned. */
    method RecordKey(key: seq<byte>) returns (diffKey: seq<byte>)
      requires curBlock.Valid()
      modifies this`keyHashes, this`maxVersion, curBlock`baseKey
      ensures curBlock.Valid()
      ensures diffKey == DiffKey(old(curBlock.baseKey), key)
      ensures State() == old(State()).(keyHashes := old(keyHashes) + [cfg.keyHash(key)],
                                       maxVersion := Max64(old(maxVersion), cfg.parseTs(key)),
                                       cur := old(curBlock.Value()).(baseKey := BaseKeyAfter(old(curBlock.baseKey), key)))
    {
      keyHashes := keyHashes + [cfg.keyHash(key)];
      var version := cfg.parseTs(key);
      if version > maxVersion {
        maxVersion := version;
      }
      if |curBlock.baseKey| == 0 {
        curBlock.baseKey := key;
        diffKey := key;
      } else {
        diffKey := KeyDiff(key);
      }
    }

    /** Adds one entry to the open block; false when one of the 16-bit header
        assertions fails. */
    method AddHelper(key: seq<byte>, v: ValueStruct, vpLen: u32) returns (ok: bool)
      requires Valid()
      modifies this, curBlock, curBlock.data
      ensures Valid() && curBlock == old(curBlock)
      ensures Step(State(), ok) == AddHelperSpec(cfg, old(State()), key, v, vpLen)
    {
      ghost var s := State();
      AddHelperKeepsWF(cfg, s, key, v, vpLen);
      var diffKey := RecordKey(key);
      if !(|key| - |diffKey| <= MaxU16) || !(|diffKey| <= MaxU16) {
        return false;
      }
      var h := Header(|key| - |diffKey|, |diffKey|);
      AppendEntry(h, diffKey, v.encoded);
      onDiskSize := Wrap32(onDiskSize + vpLen);
      ok := true;
    }

    /** Seals the open block: its max key is rebuilt from the base key and the
        last key, then the entry offsets, their count, the checksum of
        everything so far and the checksum's length are appended. */
    method SealCurBlock()
      requires curBlock.Valid() && lastKey.overlap <= |curBlock.baseKey|
      modifies curBlock, curBlock.data
      ensures curBlock.Valid()
      ensures curBlock.data == old(curBlock.data) || fresh(curBlock.data)
      ensures curBlock.Value() == SealBlock(cfg, old(curBlock.Value()), lastKey)
    {
      ghost var c := curBlock.Value();
      curBlock.maxKey := curBlock.baseKey[..lastKey.overlap] + lastKey.diff;
      Append(U32SliceBytes(curBlock.entryOffsets));
      Append(U32Bytes(Wrap32(|curBlock.entryOffsets|)));
      var checksum := cfg.checksumOf(curBlock.data[..curBlock.end]);
      assert curBlock.data[..curBlock.end] == c.bytes + U32SliceBytes(c.entryOffsets) + U32Bytes(Wrap32(|c.entryOffsets|));
      Append(checksum);
      Append(U32Bytes(Wrap32(|checksum|)));
    }

    /** Closes the open block: seals it and adds it to the block list, adding
        its length to the uncompressed size and its index estimate to the
        index size. A block without entries is left alone. */
    method FinishBlock()
      requires Valid()
      modifies this, curBlock, curBlock.data
      ensures Valid() && curBlock == old(curBlock)
      ensures State() == FinishBlockSpec(cfg, old(State()))
    {
      ghost var s := State();
      FinishBlockKeepsWF(cfg, s);
      if |curBlock.entryOffsets| == 0 {
        return;
      }
      SealCurBlock();
      blockList := blockList + [curBlock.Value()];
      uncompressedSize := Wrap32(uncompressedSize + curBlock.end);
      lenOffsets := Wrap32(lenOffsets + RoundUp4(|curBlock.baseKey|) + BlockIndexOverhead);
    }

    /** Finishes the open block first when the size estimate says so, starting
        a new empty block, then adds the entry. */
    method AddInternal(key: seq<byte>, v: ValueStruct, vpLen: u32, isStale: bool) returns (ok: bool)
      requires Valid()
      modifies this, curBlock, curBlock.data
      ensures Valid()
      ensures Step(State(), ok) == AddInternalSpec(cfg, old(State()), key, v, vpLen, isStale)
      ensures old(ShouldFinishBlock(|curBlock.entryOffsets|, curBlock.end, |key|, Wrap32(|v.encoded|), cfg.blockSize)) == Ok(true) ==>
                fresh(curBlock)
    {
      ghost var s := State();
      AddInternalKeepsWF(cfg, s, key, v, vpLen, isStale);
      var finish := ShouldFinishBlock(|curBlock.entryOffsets|, curBlock.end, |key|, Wrap32(|v.encoded|), cfg.blockSize);
      if finish.AssertionFailed? {
        return false;
      }
      if finish.value {
        if isStale {
          staleDataSize := staleDataSize + |key| + 4 + 4;
        }
        FinishBlock();
        curBlock := new Block(cfg.blockSize + Padding);
      }
      ok := AddHelper(key, v, vpLen);
    }

    /** Adds a key-value pair. */
    method Add(key: seq<byte>, value: ValueStruct, valueLen: u32) returns (ok: bool)
      requires Valid()
      modifies this, curBlock, curBlock.data
      ensures Valid()
      ensures Step(State(), ok) == AddInternalSpec(cfg, old(State()), key, value, valueLen, false)
    {
      ok := AddInternal(key, value, valueLen, false);
    }

    /** Adds a key-value pair that is known to be stale, counting its estimated
        size as stale data first. */
    method AddStaleKey(key: seq<byte>, v: ValueStruct, valueLen: u32) returns (ok: bool)
      requires Valid()
      modifies this, curBlock, curBlock.data
      ensures Valid()
      ensures Step(State(), ok) ==
              AddInternalSpec(cfg, old(State()).(staleDataSize := old(staleDataSize) + StaleEstimate(key, v)),
                              key, v, valueLen, true)
    {
      staleDataSize := staleDataSize + |key| + |v.value| + 4 + 4;
      ok := AddInternal(key, v, valueLen, true);
    }

    /** Finishes the last block and drops the key hashes (they go to the
        bloom filter, which is not part of this model). */
    method Finalize()
      requires Valid()
      modifies this, curBlock, curBlock.data
      ensures Valid()
      ensures State() == FinalizeSpec(cfg, old(State()))
    {
      FinishBlock();
      keyHashes := [];
    }

    /** Whether the table has reached its capacity: the finished blocks'
        size (compressed size when compression is on), the open block's
        offset table and trailer, the index length field and the index
        estimate, summed in uint32 and compared with the capacity. */
    function ReachedCapacity(compressedSize: u32): (r: bool)
      reads this, curBlock
      ensures var sum := if cfg.compression then compressedSize else uncompressedSize;
              var estimate := sum + 4 * |curBlock.entryOffsets| + 4 + 8 + 4 + 4 + lenOffsets;
              estimate < TwoTo32 ==> (r <==> estimate > cfg.tableCapacity)
    {
      var sumBlockSizes := if cfg.compression then compressedSize else uncompressedSize;
      var blocksSize := Wrap32(Wrap32(sumBlockSizes + Wrap32(|curBlock.entryOffsets| * 4)) + 4 + 8 + 4);
      var estimateSz := Wrap32(Wrap32(blocksSize + 4) + lenOffsets);
      estimateSz > cfg.tableCapacity
    }

    /** The descriptor of every finished block, with running uint32 start
        offsets, and the uint32 total of the block lengths. */
    method WriteBlockOffsets() returns (offsets: seq<BlockOffset>, dataSize: u32)
      ensures offsets == BlockOffsets(blockList)
      ensures dataSize == Wrap32(DataSize(blockList))
    {
      var startOffset: u32 := 0;
      offsets := [];
      for i := 0 to |blockList|
        invariant startOffset == Wrap32(DataSize(blockList[..i]))
        invariant |offsets| == i
        invariant forall j :: 0 <= j < i ==> offsets[j] == BlockOffsets(blockList)[j]
      {
        var bl := blockList[i];
        offsets := offsets + [BlockOffset(bl.baseKey, bl.maxKey, startOffset, Wrap32(|bl.bytes|))];
        DataSizeStep(blockList, i);
        Wrap32Add(DataSize(blockList[..i]), |bl.bytes|);
        startOffset := Wrap32(startOffset + |bl.bytes|);
      }
      assert blockList[..|blockList|] == blockList;
      dataSize := startOffset;
    }

    /** Hands out the finished blocks with the index and its checksum, adding
        the filter size and the data size to the on-disk size; nothing when
        no block was finished. */
    method Done(filterSize: u32, encodeIndex: IndexInfo -> seq<byte>) returns (bd: BuildData)
      requires Valid()
      modifies this`onDiskSize
      ensures Valid()
      ensures bd == DoneSpec(cfg, old(State()), filterSize, encodeIndex)
      ensures |blockList| == 0 ==> onDiskSize == old(onDiskSize)
      ensures |blockList| > 0 ==> onDiskSize == OnDiskSizeAfterDone(old(State()), filterSize)
    {
      if |blockList| == 0 {
        return EmptyBuildData;
      }
      ghost var s := State();
      var offsets, dataSize := WriteBlockOffsets();
      onDiskSize := Wrap32(onDiskSize + filterSize);
      onDiskSize := Wrap32(onDiskSize + dataSize);
      var index := encodeIndex(IndexInfo(offsets, maxVersion, uncompressedSize, onDiskSize, Wrap32(staleDataSize)));
      var checksum := cfg.checksumOf(index);
      bd := BuildData(blockList, index, checksum, dataSize, dataSize + |index| + |checksum| + 4 + 4);
    }

    /** Builds the whole table: Done, then every block, the index, its
        length, the checksum and its length copied into a buffer of the
        size Done reports. The source's check that the copy filled the
        buffer always holds. */
    method Finish(filterSize: u32, encodeIndex: IndexInfo -> seq<byte>) returns (buf: array<byte>)
      requires Valid()
      modifies this`onDiskSize
      ensures Valid() && fresh(buf)
      ensures var bd := DoneSpec(cfg, old(State()), filterSize, encodeIndex);
              buf.Length == bd.size && buf[..] == TableBytes(bd)[..bd.size]
    {
      ghost var s := State();
      var bd := Done(filterSize, encodeIndex);
      DoneSizeFits(cfg, s, filterSize, encodeIndex);
      buf := new byte[bd.size];
      var written := Copy(bd, buf);
      assert written == buf.Length;
      assert buf[..] == buf[..written];
    }
  }

  /** Copies the table into `dst`: every block's bytes, the index, its length,
      the checksum and its length, as much as fits; returns the number of
      bytes written. */
  method Copy(bd: BuildData, dst: array<byte>) returns (written: nat)
    modifies dst
    ensures written == Min(dst.Length, |TableBytes(bd)|)
    ensures dst[..written] == TableBytes(bd)[..written]
  {
    written := 0;
    for i := 0 to |bd.blockList|
      invariant written == Min(dst.Length, |Concat(bd.blockList[..i])|)
      invariant dst[..written] == Concat(bd.blockList[..i])[..written]
    {
      assert bd.blockList[..i + 1][..i] == bd.blockList[..i];
      written := CopyAppend(dst, written, Concat(bd.blockList[..i]), bd.blockList[i].bytes);
    }
    assert bd.blockList[..|bd.blockList|] == bd.blockList;
    ghost var done := Concat(bd.blockList);
    written := CopyAppend(dst, written, done, bd.index);
    done := done + bd.index;
    written := CopyAppend(dst, written, done, U32Bytes(Wrap32(|bd.index|)));
    done := done + U32Bytes(Wrap32(|bd.index|));
    written := CopyAppend(dst, written, done, bd.checksum);
    done := done + bd.checksum;
    written := CopyAppend(dst, written, done, U32Bytes(Wrap32(|bd.checksum|)));
  }
}
