/** A worked example: three keys with empty values added to a builder whose
    block size is 45 bytes, with a hash and version of 0 for every key and an
    empty checksum. The first two keys share a block, the second stored after
    its one-byte shared prefix; the third no longer fits, so the first block
    is finished and the key starts a second block. */
module Scenario {
  import opened Encoding
  import opened BuilderModel
  import opened TableLayout

  const Cfg: Config := Config(45, 1000, false, k => 0, k => 0, x => [])
  const Nothing: ValueStruct := ValueStruct([], [])
  const A1: seq<byte> := [97, 49]
  const A2: seq<byte> := [97, 50]
  const B1: seq<byte> := [98, 49]

  const S1: BuilderState :=
    BuilderState(BlockState([0, 0, 2, 0, 97, 49], A1, [], [0]), [], [0], 0, 0, 0, 0, 0, KeyDiffCtx(0, A1))

  const S2: BuilderState :=
    BuilderState(BlockState([0, 0, 2, 0, 97, 49, 1, 0, 1, 0, 50], A1, [], [0, 6]),
                 [], [0, 0], 0, 0, 0, 0, 0, KeyDiffCtx(1, [50]))

  /** The first block once finished: two entries, the offsets 0 and 6, the
      count 2, an empty checksum and its length. */
  const Block1: BlockState :=
    BlockState([0, 0, 2, 0, 97, 49, 1, 0, 1, 0, 50,
                0, 0, 0, 0, 6, 0, 0, 0,
                0, 0, 0, 2,
                0, 0, 0, 0],
               A1, A2, [0, 6])

  const S3: BuilderState :=
    BuilderState(BlockState([0, 0, 2, 0, 98, 49], B1, [], [0]),
                 [Block1], [0, 0, 0], 27, 44, 0, 0, 0, KeyDiffCtx(0, B1))

  const Block2: BlockState :=
    BlockState([0, 0, 2, 0, 98, 49,
                0, 0, 0, 0,
                0, 0, 0, 1,
                0, 0, 0, 0],
               B1, B1, [0])

  const S4: BuilderState :=
    BuilderState(Block2, [Block1, Block2], [], 45, 88, 0, 0, 0, KeyDiffCtx(0, B1))

  /** The first key becomes the base key and is stored whole. */
  lemma FirstKey()
    ensures AddInternalSpec(Cfg, InitialState, A1, Nothing, 0, false) == Step(S1, true)
  {
    assert ShouldFinishBlock(0, 0, 2, 0, 45) == Ok(false);
    assert DiffKey([], A1) == A1;
    assert EncodeHeader(Header(0, 2)) == [0, 0, 2, 0];
  }

  /** The second key fits (estimate 38 <= 45) and is stored as its last byte. */
  lemma SecondKey()
    ensures AddInternalSpec(Cfg, S1, A2, Nothing, 0, false) == Step(S2, true)
  {
    assert ShouldFinishBlock(1, 6, 2, 0, 45) == Ok(false);
    assert SharedPrefixLength(A2, A1) == 1 by {
      assert A2[1..] == [50] && A1[1..] == [49];
    }
    assert DiffKey(A1, A2) == [50];
    assert EncodeHeader(Header(1, 1)) == [1, 0, 1, 0];
  }

  /** Sealing the first block with its last key. */
  lemma SealFirst()
    ensures SealBlock(Cfg, S2.cur, S2.lastKey) == Block1
  {
    assert U32SliceBytes([0, 6]) == [0, 0, 0, 0, 6, 0, 0, 0] by {
      assert [0, 6][1..] == [6];
    }
    assert U32Bytes(Wrap32(2)) == [0, 0, 0, 2];
    assert U32Bytes(Wrap32(0)) == [0, 0, 0, 0];
    assert A1[..1] + [50] == A2;
  }

  /** The third key does not fit (estimate 47 > 45): the first block is
      finished and the key starts the next one. */
  lemma ThirdKey()
    ensures AddInternalSpec(Cfg, S2, B1, Nothing, 0, false) == Step(S3, true)
  {
    assert ShouldFinishBlock(2, 11, 2, 0, 45) == Ok(true);
    SealFirst();
    assert RoundUp4(2) == 4;
    assert DiffKey([], B1) == B1;
    assert EncodeHeader(Header(0, 2)) == [0, 0, 2, 0];
  }

  /** Finalising finishes the second block. */
  lemma FinalizeRun()
    ensures FinalizeSpec(Cfg, S3) == S4
  {
    assert U32SliceBytes([0]) == [0, 0, 0, 0];
    assert U32Bytes(Wrap32(1)) == [0, 0, 0, 1];
    assert U32Bytes(Wrap32(0)) == [0, 0, 0, 0];
    assert B1[..0] + B1 == B1;
    assert RoundUp4(2) == 4;
  }

  /** In the index, the first block starts at 0 and is 27 bytes long, the
      second starts at 27 and is 18 bytes long; with an empty index and
      checksum the table is 45 + 8 bytes. */
  lemma RunLayout()
    ensures BlockOffsets(S4.blockList) == [BlockOffset(A1, A2, 0, 27), BlockOffset(B1, B1, 27, 18)]
    ensures MakeBuildData(S4.blockList, [], []).size == 53
  {
    assert S4.blockList[..0] == [];
    assert S4.blockList[..1] == [Block1];
    assert DataSize([Block1]) == 27 by {
      assert [Block1][..0] == [];
    }
    assert DataSize(S4.blockList) == 45 by {
      assert S4.blockList[..1] == [Block1];
    }
  }
}
