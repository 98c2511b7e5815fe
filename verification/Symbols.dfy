/**
  Symbols, the strings that need no storage, the chunked index space and the
  eight-byte prefix by which short strings are recognised.
 */
module Symbols {
  import opened Bytes

  /** `Symbol(NonZeroU32)`. */
  type Symbol = s: int | 0 < s < 0x1_0000_0000 witness 1

  const INDEX_LIMIT: nat := 0xFF_FFFF
  const STATIC_SHARD: nat := 255

  /** `Symbol::new`: eight bits of shard, then the index plus one. */
  function Pack(shard: nat, index: nat): nat {
    0x100_0000 * shard + index + 1
  }

  function ShardId(symbol: Symbol): nat { symbol / 0x100_0000 }

  /** `Symbol::index`; the subtraction wraps when a raw symbol has no index bits. */
  function Index(symbol: Symbol): nat {
    if symbol % 0x100_0000 == 0 then 0xFFFF_FFFF_FFFF_FFFF else symbol % 0x100_0000 - 1
  }

  /** Packing loses nothing, and every nonzero raw symbol with an index is some packing. */
  lemma PackRoundTrip(shard: nat, index: nat)
    requires shard < 256 && index < INDEX_LIMIT
    ensures 0 < Pack(shard, index) < 0x1_0000_0000
    ensures ShardId(Pack(shard, index)) == shard && Index(Pack(shard, index)) == index
  {
  }

  lemma UnpackRoundTrip(symbol: Symbol)
    requires Index(symbol) < INDEX_LIMIT
    ensures Pack(ShardId(symbol), Index(symbol)) == symbol
  {
  }

  /** The empty string and one-byte ASCII strings live in the static shard. */
  predicate IsStatic(v: Str) {
    v == [] || (|v| == 1 && v[0] < 128)
  }

  function StaticSymbol(v: Str): (r: nat)
    requires IsStatic(v)
    ensures 0 < r < 0x1_0000_0000
  {
    Pack(STATIC_SHARD, if v == [] then 0 else v[0] as int + 1)
  }

  function StaticText(index: nat): Option<Str> {
    if index == 0 then Some([])
    else if index <= 128 then Some([(index - 1)])
    else None
  }

  const CHUNK_SIZE: nat := 4096
  const NUM_CHUNKS: nat := 4096

  function ChunkOf(index: nat): nat { index / CHUNK_SIZE }
  function SlotOf(index: nat): nat { index % CHUNK_SIZE }

  /** Chunk and slot together are a bijection between the 24-bit indices and the array's cells. */
  lemma ChunkBijection(i: nat, j: nat, chunk: nat, slot: nat)
    requires chunk < NUM_CHUNKS && slot < CHUNK_SIZE
    ensures SlotOf(i) < CHUNK_SIZE && (i <= INDEX_LIMIT ==> ChunkOf(i) < NUM_CHUNKS)
    ensures ChunkOf(i) == ChunkOf(j) && SlotOf(i) == SlotOf(j) ==> i == j
    ensures chunk * CHUNK_SIZE + slot <= INDEX_LIMIT
    ensures ChunkOf(chunk * CHUNK_SIZE + slot) == chunk && SlotOf(chunk * CHUNK_SIZE + slot) == slot
  {
  }

  /** `prefix8`: the overlapping little-endian loads of the source, as numbers. */
  function Prefix8(v: Str): nat {
    if |v| >= 8 then Word32(v[..4]) + U32_SIZE * Word32(v[4..8])
    else if |v| >= 4 then Word32(v[..4]) + U32_SIZE * Word32(v[|v| - 4..])
    else if |v| >= 2 then Word16(v[..2]) + U16_SIZE * v[|v| - 1] as int
    else 0
  }

  lemma SplitWords(x: nat, y: nat, x': nat, y': nat)
    requires x < U32_SIZE && x' < U32_SIZE && x + U32_SIZE * y == x' + U32_SIZE * y'
    ensures x == x' && y == y'
  {
  }

  lemma Overlap(a: Str, b: Str, t: nat)
    requires |a| == |b| && t <= 4 <= |a| && a[..4] == b[..4] && a[t..] == b[t..]
    ensures a == b
  {
    forall k | 0 <= k < |a| ensures a[k] == b[k] {
      if k < 4 {
        assert a[k] == a[..4][k] && b[k] == b[..4][k];
      } else {
        assert a[k] == a[t..][k - t] && b[k] == b[t..][k - t];
      }
    }
  }

  /** The prefix of a string of eight or more bytes is its first eight bytes. */
  lemma PrefixOfLong(a: Str, b: Str)
    requires |a| >= 8 && |b| >= 8 && Prefix8(a) == Prefix8(b)
    ensures a[..8] == b[..8]
  {
    SplitWords(Word32(a[..4]), Word32(a[4..8]), Word32(b[..4]), Word32(b[4..8]));
    hide Word32;
    Word32Injective(a[..4], b[..4]);
    Word32Injective(a[4..8], b[4..8]);
    assert a[..8] == a[..4] + a[4..8] && b[..8] == b[..4] + b[4..8];
  }

  lemma Prefix4To7(a: Str, b: Str)
    requires 4 <= |a| == |b| < 8 && Prefix8(a) == Prefix8(b)
    ensures a == b
  {
    var t := |a| - 4;
    SplitWords(Word32(a[..4]), Word32(a[t..]), Word32(b[..4]), Word32(b[t..]));
    Word32Injective(a[..4], b[..4]);
    Word32Injective(a[t..], b[t..]);
    Overlap(a, b, t);
  }

  lemma Prefix2To3(a: Str, b: Str)
    requires 2 <= |a| == |b| < 4 && Prefix8(a) == Prefix8(b)
    ensures a == b
  {
    var t := |a| - 1;
    assert a == a[..2] + a[2..] && b == b[..2] + b[2..];
    assert a[0] == b[0] && a[1] == b[1] && a[t] == b[t];
  }

  /** From two to eight bytes, length and prefix determine the string. */
  lemma PrefixDetermines(a: Str, b: Str)
    requires 2 <= |a| == |b| <= 8 && Prefix8(a) == Prefix8(b)
    ensures a == b
  {
    if |a| == 8 {
      PrefixOfLong(a, b);
      assert a == a[..8] && b == b[..8];
    } else if |a| >= 4 {
      Prefix4To7(a, b);
    } else {
      Prefix2To3(a, b);
    }
  }
}
