/** ASCII text. */
module Ascii {

  function LowerChar(c: char): char {
    if 'A' <= c <= 'Z' then c - 'A' + 'a' else c
  }

  function Lower(s: string): string {
    seq(|s|, i requires 0 <= i < |s| => LowerChar(s[i]))
  }

  /** The hexadecimal form of a SHA-256. */
  predicate HexHash(h: string) {
    |h| == 64 && forall c :: c in h ==> '0' <= c <= '9' || 'a' <= c <= 'f' || 'A' <= c <= 'F'
  }
}
