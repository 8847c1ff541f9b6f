/** The table builder as a state machine over values: the open block, the
    list of finished blocks and the running counters. Each operation of the
    builder is a function from the old state to the new one; the imperative
    Builder class in module TableBuilder is proved to follow these functions. */
module BuilderModel {
  import opened Encoding

  /** Extra room reserved in every block's first buffer. */
  const Padding: nat := 256
  /** Largest buffer the allocator hands out when a buffer doubles (1 GiB). */
  const MaxAllocation: nat := 0x4000_0000
  /** Per-block index overhead added besides the rounded base key length. */
  const BlockIndexOverhead: nat := 40

  /** A value to store. `value` is the raw value (used only by the stale-size
      estimate); `encoded` is its encoding as written into the block, whose
      length is the value's encoded size. */
  datatype ValueStruct = ValueStruct(value: seq<byte>, encoded: seq<byte>)

  /** Configuration and the collaborators the builder calls but does not
      define: the key hash fed to the filter (hash of the key without its
      version), the version parsed from a key, and the serialised checksum of
      a byte sequence. */
  datatype Config = Config(
    blockSize: nat,
    tableCapacity: nat,
    compression: bool,
    keyHash: seq<byte> -> u32,
    parseTs: seq<byte> -> u64,
    checksumOf: seq<byte> -> seq<byte>)

  /** A block: its bytes up to the write cursor (so `end` is `|bytes|`), its
      base key, its max key (set when the block is finished) and where each
      entry starts. */
  datatype BlockState = BlockState(
    bytes: seq<byte>,
    baseKey: seq<byte>,
    maxKey: seq<byte>,
    entryOffsets: seq<u32>)

  const EmptyBlock: BlockState := BlockState([], [], [], [])

  /** What the builder remembers of the last key added: its overlap with the
      base key and its stored suffix. */
  datatype KeyDiffCtx = KeyDiffCtx(overlap: u16, diff: seq<byte>)

  datatype BuilderState = BuilderState(
    cur: BlockState,
    blockList: seq<BlockState>,
    keyHashes: seq<u32>,
    uncompressedSize: u32,
    lenOffsets: u32,
    maxVersion: u64,
    onDiskSize: u32,
    staleDataSize: int,
    lastKey: KeyDiffCtx)

  const InitialState: BuilderState :=
    BuilderState(EmptyBlock, [], [], 0, 0, 0, 0, 0, KeyDiffCtx(0, []))

  /** The state after an operation, and false when one of the source's
      assertions failed (the process would abort at that point). */
  datatype Step = Step(state: BuilderState, ok: bool)

  /** A computed value, or a failed assertion. */
  datatype Checked<T> = Ok(value: T) | AssertionFailed

  // ---------------------------------------------------------------------------
  // Prefix compression

  /** Number of leading bytes `a` and `b` have in common. */
  function SharedPrefixLength(a: seq<byte>, b: seq<byte>): (n: nat)
    ensures n <= |a| && n <= |b|
  {
    if |a| == 0 || |b| == 0 || a[0] != b[0] then 0
    else 1 + SharedPrefixLength(a[1..], b[1..])
  }

  /** `n` is the length of the longest common prefix of `a` and `b`. */
  ghost predicate IsMaximalSharedPrefix(a: seq<byte>, b: seq<byte>, n: nat)
  {
    n <= |a| && n <= |b| && a[..n] == b[..n] && (n == |a| || n == |b| || a[n] != b[n])
  }

  lemma {:induction false} SharedPrefixLengthMaximal(a: seq<byte>, b: seq<byte>)
    ensures IsMaximalSharedPrefix(a, b, SharedPrefixLength(a, b))
  {
    if |a| > 0 && |b| > 0 && a[0] == b[0] {
      SharedPrefixLengthMaximal(a[1..], b[1..]);
      var n := SharedPrefixLength(a[1..], b[1..]);
      assert a[..n + 1] == [a[0]] + a[1..][..n];
      assert b[..n + 1] == [b[0]] + b[1..][..n];
    }
  }

  lemma {:induction false} SharedPrefixLengthUnique(a: seq<byte>, b: seq<byte>, n: nat)
    requires IsMaximalSharedPrefix(a, b, n)
    ensures SharedPrefixLength(a, b) == n
  {
    if n > 0 {
      assert a[0] == a[..n][0] == b[..n][0] == b[0];
      assert a[1..][..n - 1] == a[..n][1..];
      assert b[1..][..n - 1] == b[..n][1..];
      SharedPrefixLengthUnique(a[1..], b[1..], n - 1);
    } else if |a| > 0 && |b| > 0 {
      assert a[0] != b[0];
    }
  }

  /** The bytes of `key` that are stored: the whole key when the block has no
      base key yet, otherwise the suffix after the prefix shared with it. */
  function DiffKey(baseKey: seq<byte>, key: seq<byte>): (d: seq<byte>)
    ensures |d| <= |key| && d == key[|key| - |d|..]
  {
    if |baseKey| == 0 then key else key[SharedPrefixLength(key, baseKey)..]
  }

  /** The base key the block has once `key` is added to it. */
  function BaseKeyAfter(baseKey: seq<byte>, key: seq<byte>): seq<byte>
  {
    if |baseKey| == 0 then key else baseKey
  }

  /** The stored suffix, together with the first `|key| - |d|` bytes of the
      base key, gives back the key; the shared prefix cannot be extended; and
      a key that becomes the base key is stored whole. */
  lemma {:induction false} DiffKeyReconstructs(baseKey: seq<byte>, key: seq<byte>)
    ensures var d := DiffKey(baseKey, key);
            var base := BaseKeyAfter(baseKey, key);
            |key| - |d| <= |base| && base[..|key| - |d|] + d == key
    ensures |baseKey| == 0 ==> DiffKey(baseKey, key) == key
    ensures |baseKey| > 0 ==>
              IsMaximalSharedPrefix(key, baseKey, |key| - |DiffKey(baseKey, key)|)
  {
    if |baseKey| > 0 {
      var n := SharedPrefixLength(key, baseKey);
      SharedPrefixLengthMaximal(key, baseKey);
      assert key[..n] + key[n..] == key;
    }
  }

  // ---------------------------------------------------------------------------
  // Adding one entry to the open block

  function Max64(a: u64, b: u64): u64
  {
    if b > a then b else a
  }

  /** Adds one entry to the open block: records the key's hash and version,
      fixes the base key if the block has none, checks that both header fields
      fit in 16 bits, then records the entry's start and appends header,
      stored suffix and encoded value. */
  function AddHelperSpec(cfg: Config, s: BuilderState, key: seq<byte>, v: ValueStruct, vpLen: u32): Step
  {
    var d := DiffKey(s.cur.baseKey, key);
    var s1 := s.(keyHashes := s.keyHashes + [cfg.keyHash(key)],
                 maxVersion := Max64(s.maxVersion, cfg.parseTs(key)),
                 cur := s.cur.(baseKey := BaseKeyAfter(s.cur.baseKey, key)));
    if |key| - |d| > MaxU16 || |d| > MaxU16 then Step(s1, false)
    else
      var h := Header(|key| - |d|, |d|);
      Step(s1.(cur := s1.cur.(entryOffsets := s.cur.entryOffsets + [Wrap32(|s.cur.bytes|)],
                              bytes := s.cur.bytes + EncodeHeader(h) + d + v.encoded),
               lastKey := KeyDiffCtx(h.overlap, d),
               onDiskSize := Wrap32(s.onDiskSize + vpLen)),
           true)
  }

  /** The state invariant the finaliser relies on: the remembered overlap of
      the last key is within the base key. */
  ghost predicate WF(s: BuilderState)
  {
    |s.cur.entryOffsets| > 0 ==> s.lastKey.overlap <= |s.cur.baseKey|
  }

  // ---------------------------------------------------------------------------
  // Finishing a block

  /** Base key length rounded up to a multiple of 4 (the source's
      math.Ceil(len/4)*4, exact for every length a key can have). */
  function RoundUp4(n: nat): (r: nat)
    ensures n <= r < n + 4 && r % 4 == 0
  {
    ((n + 3) / 4) * 4
  }

  /** The open block once finished: max key rebuilt from the last key's
      overlap and suffix; offsets, count, checksum and checksum length
      appended. */
  function SealBlock(cfg: Config, c: BlockState, last: KeyDiffCtx): BlockState
    requires last.overlap <= |c.baseKey|
  {
    var body := c.bytes + U32SliceBytes(c.entryOffsets) + U32Bytes(Wrap32(|c.entryOffsets|));
    var checksum := cfg.checksumOf(body);
    c.(maxKey := c.baseKey[..last.overlap] + last.diff,
       bytes := body + checksum + U32Bytes(Wrap32(|checksum|)))
  }

  /** Does nothing to a block without entries; otherwise seals it, appends it
      to the block list and updates the size counters. The open block stays
      the sealed one until a new block is started. */
  function FinishBlockSpec(cfg: Config, s: BuilderState): BuilderState
    requires WF(s)
  {
    if |s.cur.entryOffsets| == 0 then s
    else
      var closed := SealBlock(cfg, s.cur, s.lastKey);
      s.(cur := closed,
         blockList := s.blockList + [closed],
         uncompressedSize := Wrap32(s.uncompressedSize + |closed.bytes|),
         lenOffsets := Wrap32(s.lenOffsets + RoundUp4(|s.cur.baseKey|) + BlockIndexOverhead))
  }

  /** Whether the open block must be finished before an entry with the given
      key length and encoded value size is added, computed in uint32
      arithmetic as the source does; both of its overflow assertions are
      modelled. */
  function ShouldFinishBlock(entries: nat, end: nat, keyLen: nat, valueSize: u32, blockSize: nat): (r: Checked<bool>)
    ensures entries == 0 ==> r == Ok(false)
    ensures var exact := end + 6 + keyLen + valueSize + (entries + 1) * 4 + 16;
            entries > 0 && exact < TwoTo32 ==>
              (r == AssertionFailed <==> end + exact >= MaxU32)
    ensures var exact := end + 6 + keyLen + valueSize + (entries + 1) * 4 + 16;
            entries > 0 && end + exact < MaxU32 && blockSize < TwoTo32 ==>
              r == Ok(exact > blockSize)
  {
    if entries == 0 then Ok(false)
    else if !(Wrap32((Wrap32(entries) + 1) * 4 + 4 + 8 + 4) < MaxU32) then AssertionFailed
    else
      var entriesOffsetsSize := Wrap32((entries + 1) * 4 + 4 + 8 + 4);
      var estimatedSize := Wrap32(Wrap32(end) + 6 + Wrap32(keyLen) + valueSize + entriesOffsetsSize);
      if !(end + estimatedSize < MaxU32) then AssertionFailed
      else Ok(estimatedSize > Wrap32(blockSize))
  }

  /** Add and AddStaleKey after their own bookkeeping: finish the open block
      first when the estimate says so (then start an empty one), then add the
      entry. */
  function AddInternalSpec(cfg: Config, s: BuilderState, key: seq<byte>, v: ValueStruct, vpLen: u32, isStale: bool): Step
    requires WF(s)
  {
    match ShouldFinishBlock(|s.cur.entryOffsets|, |s.cur.bytes|, |key|, Wrap32(|v.encoded|), cfg.blockSize)
    case AssertionFailed => Step(s, false)
    case Ok(finish) =>
      if !finish then AddHelperSpec(cfg, s, key, v, vpLen)
      else
        var s1 := if isStale then s.(staleDataSize := s.staleDataSize + |key| + 4 + 4) else s;
        AddHelperSpec(cfg, FinishBlockSpec(cfg, s1).(cur := EmptyBlock), key, v, vpLen)
  }

  /** The stale-size estimate AddStaleKey adds before adding the entry. */
  function StaleEstimate(key: seq<byte>, v: ValueStruct): nat
  {
    |key| + |v.value| + 4 + 4
  }

  /** Finalize: finish the open block and drop the key hashes. */
  function FinalizeSpec(cfg: Config, s: BuilderState): BuilderState
    requires WF(s)
  {
    FinishBlockSpec(cfg, s).(keyHashes := [])
  }

  // ---------------------------------------------------------------------------
  // The invariant is kept

  lemma AddHelperKeepsWF(cfg: Config, s: BuilderState, key: seq<byte>, v: ValueStruct, vpLen: u32)
    requires WF(s)
    ensures WF(AddHelperSpec(cfg, s, key, v, vpLen).state)
  {
    DiffKeyReconstructs(s.cur.baseKey, key);
  }

  lemma FinishBlockKeepsWF(cfg: Config, s: BuilderState)
    requires WF(s)
    ensures WF(FinishBlockSpec(cfg, s))
  {
  }

  lemma AddInternalKeepsWF(cfg: Config, s: BuilderState, key: seq<byte>, v: ValueStruct, vpLen: u32, isStale: bool)
    requires WF(s)
    ensures WF(AddInternalSpec(cfg, s, key, v, vpLen, isStale).state)
  {
    AddHelperKeepsWF(cfg, s, key, v, vpLen);
    var s1 := if isStale then s.(staleDataSize := s.staleDataSize + |key| + 4 + 4) else s;
    AddHelperKeepsWF(cfg, FinishBlockSpec(cfg, s1).(cur := EmptyBlock), key, v, vpLen);
  }
}
