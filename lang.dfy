/**
 * The few platform notions the core relies on: instants on the time line,
 * UUIDs, and the blank-string test of java.lang.String.
 */
module Lang {

  /** An instant on the time line, as a count of nanoseconds since the epoch.
      OffsetDateTime.isAfter compares instants, so the offset plays no part. */
  type Instant = int

  /** A java.util.UUID: two 64-bit halves. */
  datatype Uuid = Uuid(mostSigBits: bv64, leastSigBits: bv64)

  /** Character.isWhitespace: a space, line or paragraph separator other than the
      no-break spaces U+00A0, U+2007 and U+202F, or one of U+0009..U+000D, U+001C..U+001F. */
  predicate IsWhitespace(c: char)
  {
    var n := c as int;
    (0x09 <= n <= 0x0D) || (0x1C <= n <= 0x20) || n == 0x1680
    || (0x2000 <= n <= 0x2006) || (0x2008 <= n <= 0x200A)
    || n == 0x2028 || n == 0x2029 || n == 0x205F || n == 0x3000
  }

  /** String.isBlank: empty, or made only of whitespace. */
  predicate IsBlank(s: string)
  {
    forall i :: 0 <= i < |s| ==> IsWhitespace(s[i])
  }
}
