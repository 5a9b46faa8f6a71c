/** Bytes and the ASCII character classes the other modules share. */
module Bytes {
  type byte = b: int | 0 <= b < 256

  predicate IsAlphanumeric(c: char) {
    'A' <= c <= 'Z' || 'a' <= c <= 'z' || '0' <= c <= '9'
  }
}
