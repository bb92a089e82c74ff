/** Go strings are byte sequences: `len` counts bytes and `==` compares bytes.
    A raw log field value is therefore modelled as a sequence of bytes. */
module ByteStrings {

  newtype byte = x: int | 0 <= x < 256

  type Bytes = seq<byte>

  predicate IsAscii(s: string) {
    forall k :: 0 <= k < |s| ==> s[k] as int < 128
  }

  /** The bytes of an ASCII string literal, one byte per character. */
  function Ascii(s: string): (r: Bytes)
    requires IsAscii(s)
    ensures |r| == |s|
    ensures forall k :: 0 <= k < |s| ==> r[k] as int == s[k] as int
  {
    if s == [] then [] else [s[0] as int as byte] + Ascii(s[1..])
  }

  /** The single-byte placeholder nginx writes for an absent value. */
  const Dash: Bytes := [45]
}
