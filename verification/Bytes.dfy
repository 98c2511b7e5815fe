/**
  Bytes, little-endian words, UTF-8 validity and the fixed-width sizes that the
  interner and the schema codec share.
 */
module Bytes {

  type Byte = b: int | 0 <= b < 256
  type Str = seq<Byte>

  datatype Option<+T> = None | Some(value: T)

  const U16_SIZE: nat := 0x1_0000
  const U32_SIZE: nat := 0x1_0000_0000

  /** A 16-bit little-endian word (`to_le_bytes` of a u16). */
  function Le16(n: nat): (b: seq<Byte>)
    requires n < U16_SIZE
    ensures |b| == 2 && Word16(b) == n
  {
    [(n % 256), (n / 256)]
  }

  function Word16(b: seq<Byte>): (n: nat)
    requires |b| == 2
    ensures n < U16_SIZE
  {
    (b[0] as int) + 256 * (b[1] as int)
  }

  /** A 32-bit little-endian word (`to_le_bytes` of a u32). */
  function Le32(n: nat): (b: seq<Byte>)
    requires n < U32_SIZE
    ensures |b| == 4 && Word32(b) == n
  {
    [(n % 256), (n / 256 % 256), (n / 256 / 256 % 256), (n / 256 / 256 / 256)]
  }

  function Word32(b: seq<Byte>): (n: nat)
    requires |b| == 4
    ensures n < U32_SIZE
  {
    (b[0] as int) + 256 * ((b[1] as int) + 256 * ((b[2] as int) + 256 * (b[3] as int)))
  }

  /** The lowest byte and the rest determine each other's sum. */
  lemma LowByte(x: Byte, y: Byte, a: nat, b: nat)
    requires x as int + 256 * a == y as int + 256 * b
    ensures x == y && a == b
  {
    assert (x as int + 256 * a) / 256 == a && (y as int + 256 * b) / 256 == b;
  }

  /** Two words are equal only when all their bytes are. */
  lemma Word32Injective(a: seq<Byte>, b: seq<Byte>)
    requires |a| == |b| == 4 && Word32(a) == Word32(b)
    ensures a == b
  {
    var a3, b3 := a[3] as int, b[3] as int;
    var a2, b2 := a[2] as int + 256 * a3, b[2] as int + 256 * b3;
    LowByte(a[0], b[0], a[1] as int + 256 * a2, b[1] as int + 256 * b2);
    LowByte(a[1], b[1], a2, b2);
    LowByte(a[2], b[2], a3, b3);
  }

  /** The length of the well-formed UTF-8 sequence at the front of `s`, or 0 if there is none. */
  function CharLen(s: Str): (n: nat)
    ensures n <= |s| && n <= 4
  {
    if |s| >= 1 && s[0] < 0x80 then 1
    else if |s| >= 2 && 0xC2 <= s[0] <= 0xDF && Tail(s[1]) then 2
    else if |s| >= 3 && 0xE0 <= s[0] <= 0xEF && Tail(s[1]) && Tail(s[2])
            && (s[0] == 0xE0 ==> s[1] >= 0xA0) && (s[0] == 0xED ==> s[1] < 0xA0) then 3
    else if |s| >= 4 && 0xF0 <= s[0] <= 0xF4 && Tail(s[1]) && Tail(s[2]) && Tail(s[3])
            && (s[0] == 0xF0 ==> s[1] >= 0x90) && (s[0] == 0xF4 ==> s[1] < 0x90) then 4
    else 0
  }

  predicate Tail(b: Byte) { 0x80 <= b <= 0xBF }

  /** What `std::str::from_utf8` accepts. */
  predicate ValidUtf8(s: Str)
    decreases |s|
  {
    s == [] || (CharLen(s) > 0 && ValidUtf8(s[CharLen(s)..]))
  }
}
