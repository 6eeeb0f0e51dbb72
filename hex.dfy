/**
 * Lowercase hexadecimal rendering of bytes (java.util.HexFormat.of().formatHex),
 * two digits per byte, high nibble first, and its inverse.
 */
module Hex {
  import opened Wrappers

  /** An octet, read as unsigned (as HexFormat reads Java's signed bytes). */
  newtype Byte = x: int | 0 <= x < 256

  const Digits: string := "0123456789abcdef"

  predicate IsLowerHexDigit(c: char)
  {
    '0' <= c <= '9' || 'a' <= c <= 'f'
  }

  predicate IsLowerHex(s: string)
  {
    forall i :: 0 <= i < |s| ==> IsLowerHexDigit(s[i])
  }

  /** The value of one lowercase hex digit. */
  function DigitValue(c: char): (v: nat)
    requires IsLowerHexDigit(c)
    ensures v < 16 && Digits[v] == c
  {
    if c <= '9' then (c - '0') as nat else (c - 'a') as nat + 10
  }

  /** The digit for a value below 16 reads back as that value. */
  lemma DigitOfValue(n: nat)
    requires n < 16
    ensures IsLowerHexDigit(Digits[n]) && DigitValue(Digits[n]) == n
  {
  }

  /** The byte whose high and low nibbles are `hi` and `lo`. */
  function ByteOf(hi: nat, lo: nat): (b: Byte)
    requires hi < 16 && lo < 16
    ensures b as int == hi * 16 + lo
  {
    (hi * 16 + lo) as Byte
  }

  /** The two digits of one byte, high nibble first. */
  function FormatByte(b: Byte): (r: string)
    ensures |r| == 2 && IsLowerHexDigit(r[0]) && IsLowerHexDigit(r[1])
    ensures ByteOf(DigitValue(r[0]), DigitValue(r[1])) == b
  {
    var n := b as int;
    var hi, lo := n / 16, n % 16;
    DigitOfValue(hi);
    DigitOfValue(lo);
    [Digits[hi], Digits[lo]]
  }

  function FormatHex(bytes: seq<Byte>): (r: string)
    ensures |r| == 2 * |bytes|
    ensures IsLowerHex(r)
  {
    if bytes == [] then [] else FormatByte(bytes[0]) + FormatHex(bytes[1..])
  }

  /** Parses an even-length string of lowercase hex digits; None for anything else. */
  function ParseHex(s: string): (r: Option<seq<Byte>>)
    decreases |s|
  {
    if s == [] then Some([])
    else if |s| == 1 || !IsLowerHexDigit(s[0]) || !IsLowerHexDigit(s[1]) then None
    else match ParseHex(s[2..])
      case None => None
      case Some(rest) => Some([ByteOf(DigitValue(s[0]), DigitValue(s[1]))] + rest)
  }

  /** Rendering loses nothing: parsing the digits gives the bytes back. */
  lemma {:induction false} ParseFormat(bytes: seq<Byte>)
    ensures ParseHex(FormatHex(bytes)) == Some(bytes)
  {
    if bytes != [] {
      var s := FormatHex(bytes);
      assert s == FormatByte(bytes[0]) + FormatHex(bytes[1..]);
      assert s[2..] == FormatHex(bytes[1..]);
      ParseFormat(bytes[1..]);
      assert [bytes[0]] + bytes[1..] == bytes;
    }
  }

  /** The other direction: every string that parses is the rendering of what it parses to. */
  lemma {:induction false} FormatParse(s: string)
    requires ParseHex(s).Some?
    ensures FormatHex(ParseHex(s).value) == s
  {
    if s != [] {
      FormatParse(s[2..]);
      var rest := ParseHex(s[2..]).value;
      var hi, lo := DigitValue(s[0]), DigitValue(s[1]);
      var b := ByteOf(hi, lo);
      assert ParseHex(s).value == [b] + rest;
      assert ([b] + rest)[1..] == rest;
      FormatByteOf(hi, lo);
      DigitOfValue(hi);
      DigitOfValue(lo);
      assert FormatByte(b) == s[..2];
      assert s == s[..2] + s[2..];
    }
  }

  /** Formatting the byte built from two nibbles gives back their digits. */
  lemma FormatByteOf(hi: nat, lo: nat)
    requires hi < 16 && lo < 16
    ensures FormatByte(ByteOf(hi, lo)) == [Digits[hi], Digits[lo]]
  {
    var n := ByteOf(hi, lo) as int;
    assert n / 16 == hi && n % 16 == lo;
  }

  /** Distinct byte strings render differently. */
  lemma FormatHexInjective(a: seq<Byte>, b: seq<Byte>)
    requires FormatHex(a) == FormatHex(b)
    ensures a == b
  {
    ParseFormat(a);
    ParseFormat(b);
  }
}
