/**
  Go strings are immutable byte sequences and `len` counts bytes. A byte is
  written here as the character with that code, so that `"09"` reads as in Go.
 */
module GoString {

  type Byte = c: char | c as int < 256 witness '0'

  type Bytes = seq<Byte>

  /** ASCII decimal digit. */
  predicate IsDigit(b: Byte) {
    '0' <= b <= '9'
  }

  /** Every byte of `s` is an ASCII decimal digit. */
  predicate AllDigits(s: Bytes) {
    forall i :: 0 <= i < |s| ==> IsDigit(s[i])
  }
}
