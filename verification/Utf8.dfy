/**
  UTF-8 as an encoding of Unicode scalar values (section 3 of RFC 3629). The texts that
  the readers take for valid are exactly the encodings.
 */
module Utf8 {
  import opened Bytes

  /** A code point that is not a surrogate. */
  type Scalar = c: int | 0 <= c < 0xD800 || 0xE000 <= c < 0x11_0000

  /** Six bits to a byte behind the first, most significant first, in as few bytes as it takes. */
  function Encoded(c: Scalar): Str {
    if c < 0x80 then [c]
    else if c < 0x800 then [0xC0 + c / 64, 0x80 + c % 64]
    else if c < 0x1_0000 then [0xE0 + c / 4096, 0x80 + c / 64 % 64, 0x80 + c % 64]
    else [0xF0 + c / 262144, 0x80 + c / 4096 % 64, 0x80 + c / 64 % 64, 0x80 + c % 64]
  }

  function EncodedAll(cs: seq<Scalar>): Str { if cs == [] then [] else Encoded(cs[0]) + EncodedAll(cs[1..]) }

  /** The encoding of a character is recognised in front of any text. */
  lemma EncodedFront(c: Scalar, rest: Str)
    ensures CharLen(Encoded(c) + rest) == |Encoded(c)| > 0
    ensures (Encoded(c) + rest)[|Encoded(c)|..] == rest
  {
  }

  /** What is recognised as a character is the encoding of one. */
  lemma FrontEncoded(s: Str) returns (c: Scalar)
    requires CharLen(s) > 0
    ensures s[..CharLen(s)] == Encoded(c)
  {
    match CharLen(s)
    case 1 => c := s[0] as int;
    case 2 => c := (s[0] as int - 0xC0) * 64 + (s[1] as int - 0x80);
    case 3 => c := Three(s[0] as int - 0xE0, s[1] as int - 0x80, s[2] as int - 0x80);
    case 4 => c := Four(s[0] as int - 0xF0, s[1] as int - 0x80, s[2] as int - 0x80, s[3] as int - 0x80);
  }

  /** Three digits to base 64 and what divides them again. */
  lemma Three(x: nat, y: nat, z: nat) returns (c: nat)
    requires y < 64 && z < 64
    ensures c == x * 4096 + y * 64 + z && c / 4096 == x && c / 64 % 64 == y && c % 64 == z
  {
    c := x * 4096 + y * 64 + z;
    assert c / 64 == x * 64 + y;
  }

  lemma Four(w: nat, x: nat, y: nat, z: nat) returns (c: nat)
    requires x < 64 && y < 64 && z < 64
    ensures c == w * 262144 + x * 4096 + y * 64 + z
    ensures c / 262144 == w && c / 4096 % 64 == x && c / 64 % 64 == y && c % 64 == z
  {
    c := w * 262144 + x * 4096 + y * 64 + z;
    assert c / 4096 == w * 64 + x;
    assert c / 64 == (w * 64 + x) * 64 + y;
  }

  /** The bytes of any sequence of characters are valid. */
  lemma {:induction false} EncodedValid(cs: seq<Scalar>)
    ensures ValidUtf8(EncodedAll(cs))
  {
    hide CharLen, Encoded;
    if cs != [] {
      EncodedFront(cs[0], EncodedAll(cs[1..]));
      EncodedValid(cs[1..]);
    }
  }

  /** Valid bytes are those of a sequence of characters. */
  lemma {:induction false} ValidEncoded(s: Str) returns (cs: seq<Scalar>)
    requires ValidUtf8(s)
    ensures EncodedAll(cs) == s
    decreases |s|
  {
    hide CharLen, Encoded;
    cs := [];
    if s != [] {
      var c := FrontEncoded(s);
      var rest := ValidEncoded(s[CharLen(s)..]);
      cs := [c] + rest;
      assert cs[1..] == rest;
    }
  }

  /** The readers accept a text exactly if it is the encoding of some sequence of characters. */
  lemma ValidIff(s: Str)
    ensures ValidUtf8(s) <==> exists cs :: EncodedAll(cs) == s
  {
    if ValidUtf8(s) {
      var cs := ValidEncoded(s);
    }
    if cs :| EncodedAll(cs) == s { EncodedValid(cs); }
  }
}
