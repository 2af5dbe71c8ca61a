/** encoding/hex over bytes, in the way the room secret travels in a SECRET line. */
module Hex {
  import opened Wrappers

  newtype Byte = x: int | 0 <= x < 256

  type Bytes = seq<Byte>

  function Digit(n: int): char
    requires 0 <= n < 16
  {
    "0123456789abcdef"[n]
  }

  /** The decoder accepts digits of either case. */
  function DigitValue(c: char): (r: Option<int>)
    ensures r.Some? ==> 0 <= r.value < 16
  {
    if '0' <= c <= '9' then Some(c as int - '0' as int)
    else if 'a' <= c <= 'f' then Some(c as int - 'a' as int + 10)
    else if 'A' <= c <= 'F' then Some(c as int - 'A' as int + 10)
    else None
  }

  function Encode(b: Bytes): string {
    if b == [] then "" else [Digit(b[0] as int / 16), Digit(b[0] as int % 16)] + Encode(b[1..])
  }

  /** None stands for the decoder's error: an odd length or a character that is no digit. */
  function Decode(s: string): Option<Bytes> {
    if s == "" then Some([])
    else if |s| == 1 then None
    else
      match (DigitValue(s[0]), DigitValue(s[1]), Decode(s[2..]))
      case (Some(hi), Some(lo), Some(rest)) => Some([(16 * hi + lo) as Byte] + rest)
      case _ => None
  }

  lemma DigitRoundTrip(n: int)
    requires 0 <= n < 16
    ensures DigitValue(Digit(n)) == Some(n)
  {
  }

  lemma ByteOfDigits(b: Byte)
    ensures (16 * (b as int / 16) + b as int % 16) as Byte == b
  {
  }

  lemma DecodePair(b: Byte, rest: string, tail: Bytes)
    requires Decode(rest) == Some(tail)
    ensures Decode([Digit(b as int / 16), Digit(b as int % 16)] + rest) == Some([b] + tail)
  {
    DigitRoundTrip(b as int / 16);
    DigitRoundTrip(b as int % 16);
    ByteOfDigits(b);
    var s := [Digit(b as int / 16), Digit(b as int % 16)] + rest;
    assert s[2..] == rest;
  }

  /** Decoding undoes encoding. */
  lemma {:induction false} RoundTrip(b: Bytes)
    ensures Decode(Encode(b)) == Some(b)
  {
    if b == [] {
    } else {
      RoundTrip(b[1..]);
      DecodePair(b[0], Encode(b[1..]), b[1..]);
      assert [b[0]] + b[1..] == b;
    }
  }

  /** Encoded text is made of hex digits only, two for each byte. */
  lemma {:induction false} EncodeAlphabet(b: Bytes)
    ensures |Encode(b)| == 2 * |b|
    ensures forall c :: c in Encode(b) ==> DigitValue(c).Some?
  {
    if b == [] {
    } else {
      var hi, lo := b[0] as int / 16, b[0] as int % 16;
      DigitRoundTrip(hi);
      DigitRoundTrip(lo);
      EncodeAlphabet(b[1..]);
    }
  }

  predicate IsHexDigit(c: char) {
    '0' <= c <= '9' || 'a' <= c <= 'f' || 'A' <= c <= 'F'
  }

  /** What decodes is exactly an even number of hex digits, and it has a byte for every two. */
  lemma {:induction false} DecodesExactlyWhen(s: string)
    ensures Decode(s).Some? <==> |s| % 2 == 0 && forall i :: 0 <= i < |s| ==> IsHexDigit(s[i])
    ensures Decode(s).Some? ==> 2 * |Decode(s).value| == |s|
  {
    if |s| < 2 {
    } else {
      DecodesExactlyWhen(s[2..]);
      assert s == [s[0], s[1]] + s[2..];
    }
  }

  /** Two digits of either case make a byte, the high half first. */
  lemma DecodeDigits(hi: char, lo: char, rest: string)
    requires DigitValue(hi).Some? && DigitValue(lo).Some? && Decode(rest).Some?
    ensures Decode([hi, lo] + rest)
         == Some([(16 * DigitValue(hi).value + DigitValue(lo).value) as Byte] + Decode(rest).value)
  {
    assert ([hi, lo] + rest)[2..] == rest;
  }

  /** The digits written are the lower-case ones, those read are of either case. */
  lemma Spelling(n: int)
    requires 0 <= n < 16
    ensures Digit(n) == if n < 10 then '0' + n as char else 'a' + (n - 10) as char
    ensures n >= 10 ==> DigitValue('A' + (n - 10) as char) == Some(n)
  {
  }

  lemma EncodedByte(b: Byte, rest: Bytes)
    ensures Encode([b] + rest) == [Digit(b as int / 16), Digit(b as int % 16)] + Encode(rest)
  {
    assert ([b] + rest)[1..] == rest;
  }
}
