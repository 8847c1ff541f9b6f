/** What the block assembler and the block finaliser guarantee, stated over
    the value-level model. */
module BuilderProperties {
  import opened Encoding
  import opened BuilderModel

  // ---------------------------------------------------------------------------
  // Adding an entry

  /** An added entry starts at the block's old end and reads back as a header
      whose two fields add up to the key length, followed by the stored
      suffix and the encoded value; the base key's first `overlap` bytes
      followed by the suffix give back the key. */
  lemma {:induction false} AddHelperEntryDecodes(cfg: Config, s: BuilderState, key: seq<byte>, v: ValueStruct, vpLen: u32)
    requires AddHelperSpec(cfg, s, key, v, vpLen).ok
    ensures var c := AddHelperSpec(cfg, s, key, v, vpLen).state.cur;
            var off := |s.cur.bytes|;
            off + HeaderSize <= |c.bytes| && c.bytes[..off] == s.cur.bytes &&
            var h := DecodeHeader(c.bytes[off..]);
            h.overlap + h.diff == |key| &&
            off + HeaderSize + h.diff + |v.encoded| == |c.bytes| &&
            h.overlap <= |c.baseKey| &&
            c.baseKey[..h.overlap] + c.bytes[off + HeaderSize..off + HeaderSize + h.diff] == key &&
            c.bytes[off + HeaderSize + h.diff..] == v.encoded &&
            c.entryOffsets == s.cur.entryOffsets + [Wrap32(off)]
  {
    var c := AddHelperSpec(cfg, s, key, v, vpLen).state.cur;
    var off := |s.cur.bytes|;
    var d := DiffKey(s.cur.baseKey, key);
    var h0 := Header(|key| - |d|, |d|);
    assert c.bytes == s.cur.bytes + EncodeHeader(h0) + d + v.encoded;
    assert c.bytes[off..][..HeaderSize] == EncodeHeader(h0);
    HeaderRoundTrip(h0);
    assert DecodeHeader(c.bytes[off..]) == DecodeHeader(EncodeHeader(h0));
    assert c.bytes[off + HeaderSize..off + HeaderSize + |d|] == d;
    DiffKeyReconstructs(s.cur.baseKey, key);
  }

  /** The first key of a block without a base key becomes the base key and is
      stored whole (overlap 0); any later key is stored after the longest
      prefix it shares with the unchanged base key. */
  lemma AddHelperPrefixRule(cfg: Config, s: BuilderState, key: seq<byte>, v: ValueStruct, vpLen: u32)
    requires AddHelperSpec(cfg, s, key, v, vpLen).ok
    ensures var t := AddHelperSpec(cfg, s, key, v, vpLen).state;
            |s.cur.baseKey| == 0 ==> t.cur.baseKey == key && t.lastKey == KeyDiffCtx(0, key)
    ensures var t := AddHelperSpec(cfg, s, key, v, vpLen).state;
            |s.cur.baseKey| > 0 ==>
              t.cur.baseKey == s.cur.baseKey &&
              IsMaximalSharedPrefix(key, s.cur.baseKey, t.lastKey.overlap) &&
              t.lastKey.diff == key[t.lastKey.overlap..]
  {
    DiffKeyReconstructs(s.cur.baseKey, key);
  }

  /** The 16-bit assertions: they fail exactly when the overlap or the stored
      suffix is longer than 65535 bytes; a key of at most 65535 bytes always
      passes, and a key that becomes the base key passes only if it is that
      short. A failed add writes nothing into the block. */
  lemma AddHelperAssertion(cfg: Config, s: BuilderState, key: seq<byte>, v: ValueStruct, vpLen: u32)
    ensures var r := AddHelperSpec(cfg, s, key, v, vpLen);
            var d := DiffKey(s.cur.baseKey, key);
            r.ok <==> |key| - |d| <= MaxU16 && |d| <= MaxU16
    ensures |key| <= MaxU16 ==> AddHelperSpec(cfg, s, key, v, vpLen).ok
    ensures |s.cur.baseKey| == 0 ==> (AddHelperSpec(cfg, s, key, v, vpLen).ok <==> |key| <= MaxU16)
    ensures var t := AddHelperSpec(cfg, s, key, v, vpLen);
            !t.ok ==>
              t.state.cur.bytes == s.cur.bytes &&
              t.state.cur.entryOffsets == s.cur.entryOffsets &&
              t.state.blockList == s.blockList &&
              t.state.lastKey == s.lastKey
  {
  }

  /** Entry offsets are strictly increasing and each one is below the end of
      the block, as long as the block stays below 4 GiB so that the uint32
      offsets do not wrap. */
  ghost predicate OffsetsOrdered(c: BlockState)
  {
    (forall i, j :: 0 <= i < j < |c.entryOffsets| ==> c.entryOffsets[i] < c.entryOffsets[j]) &&
    (forall i :: 0 <= i < |c.entryOffsets| ==> c.entryOffsets[i] < |c.bytes|)
  }

  lemma AddHelperKeepsOffsetsOrdered(cfg: Config, s: BuilderState, key: seq<byte>, v: ValueStruct, vpLen: u32)
    requires OffsetsOrdered(s.cur)
    requires |s.cur.bytes| < TwoTo32
    ensures OffsetsOrdered(AddHelperSpec(cfg, s, key, v, vpLen).state.cur)
  {
  }

  // ---------------------------------------------------------------------------
  // Finishing a block

  /** Finishing a block without entries changes nothing. Otherwise the sealed
      block is appended to the block list exactly once, keeps its base key,
      entries and offsets, grows by the offset table, the count, the checksum
      and its length, and its length is added to the uncompressed size;
      nothing else changes. */
  lemma FinishBlockEffects(cfg: Config, s: BuilderState)
    requires WF(s)
    ensures |s.cur.entryOffsets| == 0 ==> FinishBlockSpec(cfg, s) == s
    ensures |s.cur.entryOffsets| > 0 ==>
              var t := FinishBlockSpec(cfg, s);
              var n := |s.cur.entryOffsets|;
              t.blockList == s.blockList + [t.cur] &&
              t.cur.baseKey == s.cur.baseKey &&
              t.cur.entryOffsets == s.cur.entryOffsets &&
              t.cur.bytes[..|s.cur.bytes|] == s.cur.bytes &&
              |t.cur.bytes| == |s.cur.bytes| + 4 * n + 4 + |cfg.checksumOf(t.cur.bytes[..|s.cur.bytes| + 4 * n + 4])| + 4 &&
              t.uncompressedSize == Wrap32(s.uncompressedSize + |t.cur.bytes|) &&
              t.lenOffsets == Wrap32(s.lenOffsets + RoundUp4(|s.cur.baseKey|) + BlockIndexOverhead) &&
              t.keyHashes == s.keyHashes && t.maxVersion == s.maxVersion &&
              t.onDiskSize == s.onDiskSize && t.staleDataSize == s.staleDataSize &&
              t.lastKey == s.lastKey
  {
    if |s.cur.entryOffsets| > 0 {
      var t := FinishBlockSpec(cfg, s);
      var n := |s.cur.entryOffsets|;
      var body := s.cur.bytes + U32SliceBytes(s.cur.entryOffsets) + U32Bytes(Wrap32(n));
      assert t.cur.bytes[..|s.cur.bytes| + 4 * n + 4] == body;
    }
  }

  /** Finishing twice appends the block twice: the block-closing step is not
      idempotent, because the entry offsets of a finished block are not
      cleared until a new block is started. */
  lemma FinishBlockTwiceAppendsTwice(cfg: Config, s: BuilderState)
    requires WF(s) && |s.cur.entryOffsets| > 0
    ensures WF(FinishBlockSpec(cfg, s))
    ensures |FinishBlockSpec(cfg, FinishBlockSpec(cfg, s)).blockList| == |s.blockList| + 2
  {
  }

  /** What a reader finds at the end of a finished block. */
  datatype BlockTrailer = BlockTrailer(entriesEnd: nat, entryOffsets: seq<u32>, checksum: seq<byte>)

  /** Reads a block from its tail: checksum length, checksum, entry count and
      entry offsets. */
  function ParseBlockTrailer(b: seq<byte>): Option<BlockTrailer>
  {
    if |b| < 4 then None
    else
      var csLen := DecodeU32(b[|b| - 4..]);
      if |b| < 8 + csLen then None
      else
        var csStart := |b| - 4 - csLen;
        var n := DecodeU32(b[csStart - 4..csStart]);
        if csStart < 4 + 4 * n then None
        else
          var offStart := csStart - 4 - 4 * n;
          Some(BlockTrailer(offStart, DecodeU32Slice(b[offStart..csStart - 4]), b[csStart..|b| - 4]))
  }

  lemma TrailerParsesFrom(e: seq<byte>, offs: seq<byte>, xs: seq<u32>, cs: seq<byte>)
    requires |xs| < TwoTo32 && |cs| < TwoTo32
    requires |offs| == 4 * |xs| && DecodeU32Slice(offs) == xs
    ensures ParseBlockTrailer(e + offs + U32Bytes(|xs|) + cs + U32Bytes(|cs|))
            == Some(BlockTrailer(|e|, xs, cs))
    ensures var b := e + offs + U32Bytes(|xs|) + cs + U32Bytes(|cs|);
            b[..|e|] == e && b[..|b| - 4 - |cs|] == e + offs + U32Bytes(|xs|)
  {
    var b := e + offs + U32Bytes(|xs|) + cs + U32Bytes(|cs|);
    var csStart := |e| + |offs| + 4;
    assert DecodeU32(b[|b| - 4..]) == |cs| by {
      assert b[|b| - 4..] == U32Bytes(|cs|);
      U32RoundTrip(|cs|);
    }
    assert DecodeU32(b[csStart - 4..csStart]) == |xs| by {
      assert b[csStart - 4..csStart] == U32Bytes(|xs|);
      U32RoundTrip(|xs|);
    }
    assert b[|e|..csStart - 4] == offs;
    assert b[csStart..|b| - 4] == cs;
    assert b[..|e|] == e;
    assert b[..|b| - 4 - |cs|] == e + offs + U32Bytes(|xs|);
  }

  lemma TrailerParses(e: seq<byte>, xs: seq<u32>, cs: seq<byte>)
    requires |xs| < TwoTo32 && |cs| < TwoTo32
    ensures ParseBlockTrailer(e + U32SliceBytes(xs) + U32Bytes(|xs|) + cs + U32Bytes(|cs|))
            == Some(BlockTrailer(|e|, xs, cs))
    ensures var b := e + U32SliceBytes(xs) + U32Bytes(|xs|) + cs + U32Bytes(|cs|);
            b[..|e|] == e && b[..|b| - 4 - |cs|] == e + U32SliceBytes(xs) + U32Bytes(|xs|)
  {
    U32SliceRoundTrip(xs);
    TrailerParsesFrom(e, U32SliceBytes(xs), xs, cs);
  }

  /** A finished block can be read back from its tail: the trailer gives the
      end of the entries, the exact entry offsets, and a checksum that is the
      checksum of every byte before it. */
  lemma FinishBlockTrailerParses(cfg: Config, s: BuilderState)
    requires WF(s) && 0 < |s.cur.entryOffsets| < TwoTo32
    requires forall x :: |cfg.checksumOf(x)| < TwoTo32
    ensures var b := FinishBlockSpec(cfg, s).cur.bytes;
            var p := ParseBlockTrailer(b);
            p.Some? &&
            p.value.entriesEnd == |s.cur.bytes| && b[..p.value.entriesEnd] == s.cur.bytes &&
            p.value.entryOffsets == s.cur.entryOffsets &&
            |p.value.checksum| + 4 <= |b| &&
            p.value.checksum == cfg.checksumOf(b[..|b| - 4 - |p.value.checksum|])
  {
    var c := s.cur;
    var body := c.bytes + U32SliceBytes(c.entryOffsets) + U32Bytes(|c.entryOffsets|);
    var cs := cfg.checksumOf(body);
    var b := FinishBlockSpec(cfg, s).cur.bytes;
    assert b == body + cs + U32Bytes(|cs|) by {
      assert FinishBlockSpec(cfg, s).cur == SealBlock(cfg, c, s.lastKey);
    }
    assert |cs| < TwoTo32;
    TrailerParses(c.bytes, c.entryOffsets, cs);
    assert ParseBlockTrailer(b) == Some(BlockTrailer(|c.bytes|, c.entryOffsets, cs));
    assert b[..|c.bytes|] == c.bytes;
    assert b[..|b| - 4 - |cs|] == body;
  }

  /** The max key recorded when a block is finished is the last key added to
      it. */
  lemma FinishedBlockMaxKeyIsLastKey(cfg: Config, s: BuilderState, key: seq<byte>, v: ValueStruct, vpLen: u32)
    requires WF(s)
    requires AddHelperSpec(cfg, s, key, v, vpLen).ok
    ensures WF(AddHelperSpec(cfg, s, key, v, vpLen).state)
    ensures var t := FinishBlockSpec(cfg, AddHelperSpec(cfg, s, key, v, vpLen).state);
            |t.blockList| > 0 && t.blockList[|t.blockList| - 1].maxKey == key
  {
    AddHelperKeepsWF(cfg, s, key, v, vpLen);
    DiffKeyReconstructs(s.cur.baseKey, key);
  }

  // ---------------------------------------------------------------------------
  // The block-closing decision

  /** When the estimate says the open block is full, the add finishes it
      (appending it to the block list), starts an empty block and stores the
      new entry as that block's first one, with the key as base key. */
  lemma AddInternalClosesBlock(cfg: Config, s: BuilderState, key: seq<byte>, v: ValueStruct, vpLen: u32, isStale: bool)
    requires WF(s)
    requires ShouldFinishBlock(|s.cur.entryOffsets|, |s.cur.bytes|, |key|, Wrap32(|v.encoded|), cfg.blockSize) == Ok(true)
    ensures |s.cur.entryOffsets| > 0
    ensures var r := AddInternalSpec(cfg, s, key, v, vpLen, isStale);
            r.state.blockList == s.blockList + [SealBlock(cfg, s.cur, s.lastKey)] &&
            (r.ok <==> |key| <= MaxU16) &&
            (r.ok ==> r.state.cur == BlockState(EncodeHeader(Header(0, |key|)) + key + v.encoded, key, [], [0]))
  {
  }

  /** When the estimate says the entry fits, the add leaves the block list
      alone and adds the entry to the open block. */
  lemma AddInternalKeepsBlock(cfg: Config, s: BuilderState, key: seq<byte>, v: ValueStruct, vpLen: u32, isStale: bool)
    requires WF(s)
    requires ShouldFinishBlock(|s.cur.entryOffsets|, |s.cur.bytes|, |key|, Wrap32(|v.encoded|), cfg.blockSize) == Ok(false)
    ensures AddInternalSpec(cfg, s, key, v, vpLen, isStale) == AddHelperSpec(cfg, s, key, v, vpLen)
    ensures AddInternalSpec(cfg, s, key, v, vpLen, isStale).state.blockList == s.blockList
  {
  }

  // ---------------------------------------------------------------------------
  // Block size bound

  /** A finished block is within the block size unless it holds one entry. */
  ghost predicate SealedWithinSize(blockSize: nat, b: BlockState)
  {
    |b.entryOffsets| == 1 || |b.bytes| <= blockSize
  }

  /** An open block with two or more entries still fits the block size once
      its offset table and an 8-byte checksum are appended. */
  ghost predicate OpenWithinSize(blockSize: nat, c: BlockState)
  {
    |c.entryOffsets| >= 2 ==> |c.bytes| + 4 * |c.entryOffsets| + 16 <= blockSize
  }

  ghost predicate BlocksWithinSize(cfg: Config, s: BuilderState)
  {
    (forall i :: 0 <= i < |s.blockList| ==> SealedWithinSize(cfg.blockSize, s.blockList[i])) &&
    OpenWithinSize(cfg.blockSize, s.cur)
  }

  /** The serialised CRC32C checksum record is at most 8 bytes long, as the
      source's size estimates assume. */
  ghost predicate ChecksumFits(cfg: Config)
  {
    forall x :: |cfg.checksumOf(x)| <= 8
  }

  lemma SealKeepsWithinSize(cfg: Config, c: BlockState, last: KeyDiffCtx)
    requires last.overlap <= |c.baseKey| && |c.entryOffsets| >= 1
    requires OpenWithinSize(cfg.blockSize, c) && ChecksumFits(cfg)
    ensures SealedWithinSize(cfg.blockSize, SealBlock(cfg, c, last))
  {
    var body := c.bytes + U32SliceBytes(c.entryOffsets) + U32Bytes(Wrap32(|c.entryOffsets|));
    assert |cfg.checksumOf(body)| <= 8;
  }

  /** Every finished block stays within the configured block size, except a
      block holding a single entry: adding an entry keeps this true as long as
      the block size fits in 32 bits and the estimate does not overflow. */
  lemma AddInternalKeepsBlocksWithinSize(cfg: Config, s: BuilderState, key: seq<byte>, v: ValueStruct, vpLen: u32, isStale: bool)
    requires WF(s) && BlocksWithinSize(cfg, s) && ChecksumFits(cfg)
    requires cfg.blockSize < TwoTo32
    requires 2 * |s.cur.bytes| + 6 + |key| + |v.encoded| + 4 * (|s.cur.entryOffsets| + 1) + 16 < MaxU32
    ensures BlocksWithinSize(cfg, AddInternalSpec(cfg, s, key, v, vpLen, isStale).state)
  {
    var n := |s.cur.entryOffsets|;
    var sf := ShouldFinishBlock(n, |s.cur.bytes|, |key|, Wrap32(|v.encoded|), cfg.blockSize);
    var r := AddInternalSpec(cfg, s, key, v, vpLen, isStale);
    if sf == Ok(true) {
      SealKeepsWithinSize(cfg, s.cur, s.lastKey);
      var s1 := if isStale then s.(staleDataSize := s.staleDataSize + |key| + 4 + 4) else s;
      var t := FinishBlockSpec(cfg, s1);
      assert t.blockList == s.blockList + [SealBlock(cfg, s.cur, s.lastKey)];
      assert r.state.blockList == t.blockList;
      forall i | 0 <= i < |r.state.blockList|
        ensures SealedWithinSize(cfg.blockSize, r.state.blockList[i])
      {
        if i < |s.blockList| {
          assert r.state.blockList[i] == s.blockList[i];
        }
      }
    } else if sf == Ok(false) && n > 0 {
      DiffKeyReconstructs(s.cur.baseKey, key);
    }
  }

  /** Finishing the last block keeps every finished block within size. */
  lemma FinishBlockKeepsBlocksWithinSize(cfg: Config, s: BuilderState)
    requires WF(s) && BlocksWithinSize(cfg, s) && ChecksumFits(cfg)
    ensures forall i :: 0 <= i < |FinishBlockSpec(cfg, s).blockList| ==>
              SealedWithinSize(cfg.blockSize, FinishBlockSpec(cfg, s).blockList[i])
  {
    if |s.cur.entryOffsets| > 0 {
      SealKeepsWithinSize(cfg, s.cur, s.lastKey);
      var t := FinishBlockSpec(cfg, s);
      forall i | 0 <= i < |t.blockList|
        ensures SealedWithinSize(cfg.blockSize, t.blockList[i])
      {
        if i < |s.blockList| {
          assert t.blockList[i] == s.blockList[i];
        }
      }
    }
  }

  // ---------------------------------------------------------------------------
  // Capacity estimate

  /** The capacity estimate without compression, in exact arithmetic: finished
      bytes, the open block's offset table, count and checksum overhead, the
      index-length field and the index estimate. */
  ghost function CapacityEstimate(s: BuilderState): int
  {
    s.uncompressedSize + 4 * |s.cur.entryOffsets| + 4 + 8 + 4 + 4 + s.lenOffsets
  }

  /** The estimate never decreases as entries are added (while the uint32
      counters do not wrap), so once capacity is reached it stays reached. */
  lemma AddInternalGrowsEstimate(cfg: Config, s: BuilderState, key: seq<byte>, v: ValueStruct, vpLen: u32, isStale: bool)
    requires WF(s) && ChecksumFits(cfg)
    requires s.uncompressedSize + |s.cur.bytes| + 4 * |s.cur.entryOffsets| + 16 < TwoTo32
    requires s.lenOffsets + RoundUp4(|s.cur.baseKey|) + BlockIndexOverhead < TwoTo32
    ensures CapacityEstimate(AddInternalSpec(cfg, s, key, v, vpLen, isStale).state) >= CapacityEstimate(s)
  {
    var n := |s.cur.entryOffsets|;
    var sf := ShouldFinishBlock(n, |s.cur.bytes|, |key|, Wrap32(|v.encoded|), cfg.blockSize);
    if sf == Ok(true) {
      var s1 := if isStale then s.(staleDataSize := s.staleDataSize + |key| + 4 + 4) else s;
      var body := s.cur.bytes + U32SliceBytes(s.cur.entryOffsets) + U32Bytes(Wrap32(n));
      assert |cfg.checksumOf(body)| <= 8;
      var t := FinishBlockSpec(cfg, s1);
      assert t.uncompressedSize >= s.uncompressedSize + 4 * n + 8;
      assert t.lenOffsets >= s.lenOffsets;
    }
  }
}
