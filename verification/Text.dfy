/** Characters as the web client's runtime classifies them, and a text of any length. */
module Text {
  /** What trimming removes and number parsing skips: white space and line ends. */
  predicate IsSpace(c: char) {
    var n := c as int;
    9 <= n <= 13 || n == 32 || n == 160 || n == 5760 || 8192 <= n <= 8202 || n == 8232 || n == 8233 || n == 8239
    || n == 8287 || n == 12288 || n == 65279
  }

  /** The value of a hexadecimal digit, or -1. */
  function HexValue(c: char): int {
    if '0' <= c <= '9' then c as int - '0' as int
    else if 'a' <= c <= 'f' then c as int - 'a' as int + 10
    else if 'A' <= c <= 'F' then c as int - 'A' as int + 10
    else -1
  }

  /** A text of that length. */
  function Long(n: nat): (s: string)
    ensures |s| == n
  {
    seq(n, i requires 0 <= i < n => 'x')
  }
}
