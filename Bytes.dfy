/**
 * Bytes, big-endian integers, UTF-8 byte lengths and the `hex` crate's
 * decoding, as the rest of the model uses them.
 */
module Bytes {
  import opened Results

  type byte = b: int | 0 <= b < 256

  /** 256 to the power `n`. */
  function Pow256(n: nat): (p: nat)
    ensures p >= 1
  {
    if n == 0 then 1 else 256 * Pow256(n - 1)
  }

  /** The unsigned integer that `bs` encodes, most significant byte first. */
  function BigEndian(bs: seq<byte>): (v: nat)
    ensures v < Pow256(|bs|)
  {
    if bs == [] then 0
    else
      var hi := BigEndian(bs[..|bs| - 1]);
      assert hi <= Pow256(|bs| - 1) - 1;
      hi * 256 + bs[|bs| - 1]
  }

  /** The `n`-byte big-endian encoding of `v`. */
  function ToBigEndian(v: nat, n: nat): (bs: seq<byte>)
    requires v < Pow256(n)
    ensures |bs| == n
  {
    if n == 0 then []
    else ToBigEndian(v / 256, n - 1) + [v % 256]
  }

  lemma {:induction false} BigEndianRoundTrip(v: nat, n: nat)
    requires v < Pow256(n)
    ensures BigEndian(ToBigEndian(v, n)) == v
  {
    if n > 0 {
      var bs := ToBigEndian(v, n);
      BigEndianRoundTrip(v / 256, n - 1);
      assert bs[..n - 1] == ToBigEndian(v / 256, n - 1);
    }
  }

  /** Conversely, a byte string is the encoding of its own value. */
  lemma {:induction false} ToBigEndianOfBigEndian(bs: seq<byte>)
    ensures ToBigEndian(BigEndian(bs), |bs|) == bs
  {
    if bs != [] {
      var n := |bs| - 1;
      var init := bs[..n];
      ToBigEndianOfBigEndian(init);
      var v := BigEndian(bs);
      assert v == BigEndian(init) * 256 + bs[n];
      assert v / 256 == BigEndian(init) && v % 256 == bs[n];
      assert bs == init + [bs[n]];
    }
  }

  // ---------------------------------------------------------------- UTF-8

  /** The UTF-8 encoding of one Unicode scalar value. */
  function CharUtf8(c: char): (bs: seq<byte>)
    ensures 1 <= |bs| <= 4
    ensures |bs| == 1 <==> c as int < 0x80
  {
    var n := c as int;
    if n < 0x80 then [n]
    else if n < 0x800 then [0xC0 + n / 64, 0x80 + n % 64]
    else if n < 0x1_0000 then [0xE0 + n / 4096, 0x80 + (n / 64) % 64, 0x80 + n % 64]
    else [0xF0 + n / 262144, 0x80 + (n / 4096) % 64, 0x80 + (n / 64) % 64, 0x80 + n % 64]
  }

  /** `s.as_bytes()` of a Rust `String`: its UTF-8 encoding. */
  function Utf8Encode(s: string): (bs: seq<byte>)
    ensures |bs| >= |s|
  {
    if s == [] then [] else Utf8Encode(s[..|s| - 1]) + CharUtf8(s[|s| - 1])
  }

  predicate IsAscii(s: string) {
    forall i | 0 <= i < |s| :: s[i] as int < 0x80
  }

  /** On ASCII text, Rust's byte length `len()` is the number of characters. */
  lemma {:induction false} AsciiByteLength(s: string)
    requires IsAscii(s)
    ensures |Utf8Encode(s)| == |s|
  {
    if s != [] {
      AsciiByteLength(s[..|s| - 1]);
    }
  }

  // ------------------------------------------------------------------ hex

  /** The value of one hex digit, either case, as the `hex` crate reads it. */
  function HexDigit(c: char): (d: Option<nat>)
    ensures d.Some? ==> d.value < 16 && c as int < 0x80
  {
    if '0' <= c <= '9' then Some(c as int - '0' as int)
    else if 'a' <= c <= 'f' then Some(c as int - 'a' as int + 10)
    else if 'A' <= c <= 'F' then Some(c as int - 'A' as int + 10)
    else None
  }

  /** Lower-case hex digit for a value below 16. */
  function HexChar(d: nat): (c: char)
    requires d < 16
    ensures HexDigit(c) == Some(d)
  {
    if d < 10 then ('0' as int + d) as char else ('a' as int + d - 10) as char
  }

  /** Decodes consecutive digit pairs, high nibble first. */
  function HexPairs(s: string): (r: Option<seq<byte>>)
    requires |s| % 2 == 0
    ensures r.Some? ==> |s| == 2 * |r.value| && IsAscii(s)
    ensures r.Some? <==> forall i | 0 <= i < |s| :: HexDigit(s[i]).Some?
  {
    if s == [] then Some([])
    else
      match (HexDigit(s[0]), HexDigit(s[1]), HexPairs(s[2..]))
      case (Some(hi), Some(lo), Some(rest)) =>
        assert forall i | 2 <= i < |s| :: s[i] == s[2..][i - 2];
        Some([16 * hi + lo] + rest)
      case _ => None
  }

  /**
   * `hex::decode`: an odd number of digits, or any character that is not a
   * hex digit, is an error.
   */
  function HexDecode(s: string): (r: Option<seq<byte>>)
    ensures r.Some? <==> |s| % 2 == 0 && forall i | 0 <= i < |s| :: HexDigit(s[i]).Some?
    ensures r.Some? ==> |s| == 2 * |r.value| && IsAscii(s)
  {
    if |s| % 2 != 0 then None else HexPairs(s)
  }

  /** Lower-case hex encoding, the inverse of `HexDecode`. */
  function HexEncode(bs: seq<byte>): (s: string)
    ensures |s| == 2 * |bs|
  {
    if bs == [] then [] else [HexChar(bs[0] / 16), HexChar(bs[0] % 16)] + HexEncode(bs[1..])
  }

  lemma {:induction false} HexRoundTrip(bs: seq<byte>)
    ensures HexDecode(HexEncode(bs)) == Some(bs)
  {
    if bs != [] {
      var s := HexEncode(bs);
      assert s[2..] == HexEncode(bs[1..]);
      HexRoundTrip(bs[1..]);
      assert [16 * (bs[0] / 16) + bs[0] % 16] + bs[1..] == bs;
    }
  }

  /** A decodable hex string has byte length twice the decoded length. */
  lemma HexByteLength(s: string)
    requires HexDecode(s).Some?
    ensures |Utf8Encode(s)| == |s| == 2 * |HexDecode(s).value|
  {
    AsciiByteLength(s);
  }
}
