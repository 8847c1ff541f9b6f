/** Fixed-width integers and the byte encodings the table builder writes:
    the 4-byte entry header (two 16-bit fields, host little-endian layout),
    big-endian 32-bit lengths and little-endian 32-bit offset arrays. */
module Encoding {

  type byte = x: int | 0 <= x < 0x100
  type u16 = x: int | 0 <= x < 0x1_0000
  type u32 = x: int | 0 <= x < 0x1_0000_0000
  type u64 = x: int | 0 <= x < 0x1_0000_0000_0000_0000

  const MaxU16: int := 0xFFFF
  const MaxU32: int := 0xFFFF_FFFF
  const TwoTo32: int := 0x1_0000_0000

  datatype Option<T> = None | Some(value: T)

  /** Conversion of a non-negative integer to uint32, as Go's uint32(...) and
      uint32 addition do: the value modulo 2^32. */
  function Wrap32(x: int): (r: u32)
    ensures 0 <= x < TwoTo32 ==> r == x
    ensures 0 <= x ==> r <= x
  {
    x % TwoTo32
  }

  lemma Wrap32Add(x: nat, y: int)
    ensures Wrap32(Wrap32(x) + y) == Wrap32(x + y)
  {
    var q := x / TwoTo32;
    assert x == q * TwoTo32 + Wrap32(x);
    assert (q * TwoTo32 + (Wrap32(x) + y)) % TwoTo32 == (Wrap32(x) + y) % TwoTo32;
  }

  // ---------------------------------------------------------------------------
  // Entry header

  /** The per-entry header: length of the prefix shared with the block's base
      key, and length of the stored suffix. */
  datatype Header = Header(overlap: u16, diff: u16)

  const HeaderSize: nat := 4

  /** The two 16-bit fields laid out as the struct's memory on a little-endian host. */
  function EncodeHeader(h: Header): (r: seq<byte>)
    ensures |r| == HeaderSize
    ensures r[0] as int + 0x100 * (r[1] as int) == h.overlap && r[2] as int + 0x100 * (r[3] as int) == h.diff
  {
    [h.overlap % 0x100, h.overlap / 0x100, h.diff % 0x100, h.diff / 0x100]
  }

  /** Reads a header from the first four bytes of a buffer; shorter buffers
      make the source's slice expression panic. */
  function DecodeHeader(buf: seq<byte>): (h: Header)
    requires |buf| >= HeaderSize
    ensures EncodeHeader(h) == buf[..HeaderSize]
  {
    LowByte(buf[0], buf[1]);
    LowByte(buf[2], buf[3]);
    Header(buf[0] as int + 0x100 * (buf[1] as int), buf[2] as int + 0x100 * (buf[3] as int))
  }

  lemma HeaderRoundTrip(h: Header)
    ensures DecodeHeader(EncodeHeader(h)) == h
  {
  }

  lemma LowByte(lo: byte, hi: byte)
    ensures (lo + 0x100 * hi) % 0x100 == lo && (lo + 0x100 * hi) / 0x100 == hi
  {
  }

  // ---------------------------------------------------------------------------
  // 32-bit values

  /** A uint32 as four big-endian bytes (the library's U32ToBytes). */
  function U32Bytes(x: u32): (r: seq<byte>)
    ensures |r| == 4
  {
    [x / 0x100_0000, (x / 0x1_0000) % 0x100, (x / 0x100) % 0x100, x % 0x100]
  }

  /** Reads four big-endian bytes as a uint32. */
  function DecodeU32(b: seq<byte>): u32
    requires |b| == 4
  {
    b[0] as int * 0x100_0000 + b[1] as int * 0x1_0000 + b[2] as int * 0x100 + b[3]
  }

  lemma U32BytesDecode(b: seq<byte>)
    requires |b| == 4
    ensures U32Bytes(DecodeU32(b)) == b
  {
    var x := DecodeU32(b);
    assert x / 0x100 == b[0] as int * 0x1_0000 + b[1] as int * 0x100 + b[2];
    assert x / 0x1_0000 == b[0] as int * 0x100 + b[1];
  }

  lemma U32RoundTrip(x: u32)
    ensures DecodeU32(U32Bytes(x)) == x
  {
    var b := U32Bytes(x);
    assert x == (x / 0x100) * 0x100 + x % 0x100;
    assert x / 0x100 == (x / 0x1_0000) * 0x100 + (x / 0x100) % 0x100;
    assert x / 0x1_0000 == (x / 0x100_0000) * 0x100 + (x / 0x1_0000) % 0x100;
  }

  /** A uint32 as four little-endian bytes: one element of an offset array
      reinterpreted as bytes on a little-endian host. */
  function U32LeBytes(x: u32): (r: seq<byte>)
    ensures |r| == 4
  {
    [x % 0x100, (x / 0x100) % 0x100, (x / 0x1_0000) % 0x100, x / 0x100_0000]
  }

  /** Reads four little-endian bytes as a uint32. */
  function DecodeU32Le(b: seq<byte>): u32
    requires |b| == 4
  {
    b[3] as int * 0x100_0000 + b[2] as int * 0x1_0000 + b[1] as int * 0x100 + b[0]
  }

  lemma U32LeBytesDecode(b: seq<byte>)
    requires |b| == 4
    ensures U32LeBytes(DecodeU32Le(b)) == b
  {
    var x := DecodeU32Le(b);
    assert x / 0x100 == b[3] as int * 0x1_0000 + b[2] as int * 0x100 + b[1];
    assert x / 0x1_0000 == b[3] as int * 0x100 + b[2];
  }

  lemma U32LeRoundTrip(x: u32)
    ensures DecodeU32Le(U32LeBytes(x)) == x
  {
    assert x == (x / 0x100) * 0x100 + x % 0x100;
    assert x / 0x100 == (x / 0x1_0000) * 0x100 + (x / 0x100) % 0x100;
    assert x / 0x1_0000 == (x / 0x100_0000) * 0x100 + (x / 0x1_0000) % 0x100;
  }

  /** A uint32 slice reinterpreted as its bytes (the library's U32SliceToBytes). */
  function U32SliceBytes(xs: seq<u32>): (r: seq<byte>)
    ensures |r| == 4 * |xs|
  {
    if |xs| == 0 then [] else U32LeBytes(xs[0]) + U32SliceBytes(xs[1..])
  }

  /** Reads consecutive little-endian uint32 values; trailing bytes that do
      not make up a whole value are ignored. */
  function DecodeU32Slice(b: seq<byte>): seq<u32>
  {
    if |b| < 4 then [] else [DecodeU32Le(b[..4])] + DecodeU32Slice(b[4..])
  }

  lemma {:induction false} U32SliceRoundTrip(xs: seq<u32>)
    ensures DecodeU32Slice(U32SliceBytes(xs)) == xs
  {
    if |xs| > 0 {
      var b := U32SliceBytes(xs);
      assert b[..4] == U32LeBytes(xs[0]);
      assert b[4..] == U32SliceBytes(xs[1..]);
      U32LeRoundTrip(xs[0]);
      U32SliceRoundTrip(xs[1..]);
    }
  }
}
