/** Octets, as Python's `bytes` holds them. */
module Bytes {

  type byte = b: int | 0 <= b < 256

  /** True when every character is in the 7-bit ASCII range (what `str.encode('ascii')` accepts). */
  predicate IsAscii(s: string)
  {
    forall i :: 0 <= i < |s| ==> s[i] as int < 128
  }
}
