/** Bytes and digests, as the image and storage modules use them. */
module Primitives {

  newtype Byte = b: int | 0 <= b < 256

  predicate HexDigit(c: char) {
    '0' <= c <= '9' || 'a' <= c <= 'f' || 'A' <= c <= 'F'
  }

  lemma HexDigitIs(c: char)
    ensures HexDigit(c) <==> '/' < c < ':' || '`' < c < 'g' || '@' < c < 'G'
  {
  }

  /** The text of a SHA-256 digest. */
  predicate ValidDigest(digest: string) {
    |digest| == 64 && forall i :: 0 <= i < |digest| ==> HexDigit(digest[i])
  }
}
