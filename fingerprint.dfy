/**
 * The fingerprint of `DriveService.compute_content_hash`: the MD5 digest of
 * the UTF-8 bytes of the content, written as lower-case hexadecimal
 * (`hashlib.md5(...).hexdigest()`). MD5 itself, together with the UTF-8
 * encoding, is an injected function from strings to 16-byte digests; the
 * hexadecimal rendering is modelled exactly.
 */
module Fingerprint {

  type Byte = b: int | 0 <= b < 256

  /** An MD5 digest: sixteen bytes. */
  type Digest = d: seq<Byte> | |d| == 16 witness seq(16, _ => 0)

  const HEX_DIGITS: string := "0123456789abcdef"

  predicate IsLowerHex(s: string) {
    forall i | 0 <= i < |s| :: s[i] in HEX_DIGITS
  }

  /** Python's `bytes.hex()`: two lower-case hexadecimal digits per byte, high nibble first. */
  function Hex(bytes: seq<Byte>): (r: string)
    ensures |r| == 2 * |bytes|
  {
    if bytes == [] then ""
    else [HEX_DIGITS[bytes[0] / 16], HEX_DIGITS[bytes[0] % 16]] + Hex(bytes[1..])
  }

  /** Every character of the rendering is a lower-case hexadecimal digit. */
  lemma {:induction false} HexIsLowerHex(bytes: seq<Byte>)
    ensures IsLowerHex(Hex(bytes))
  {
    if bytes != [] {
      HexIsLowerHex(bytes[1..]);
      var r := Hex(bytes);
      assert forall i | 2 <= i < |r| :: r[i] == Hex(bytes[1..])[i - 2];
    }
  }

  function NibbleValue(c: char): (v: nat)
    ensures v < 16
  {
    if '0' <= c <= '9' then c as int - '0' as int
    else if 'a' <= c <= 'f' then c as int - 'a' as int + 10
    else 0
  }

  /** Reading hexadecimal digits back into bytes (Python's `bytes.fromhex`). */
  function Unhex(s: string): seq<Byte>
    decreases |s|
  {
    if |s| < 2 then [] else [16 * NibbleValue(s[0]) + NibbleValue(s[1])] + Unhex(s[2..])
  }

  lemma NibbleOfDigit(v: nat)
    requires v < 16
    ensures NibbleValue(HEX_DIGITS[v]) == v
  {
  }

  /** Reading back the two digits of one byte gives that byte. */
  lemma UnhexPair(b: Byte, rest: string)
    ensures Unhex([HEX_DIGITS[b / 16], HEX_DIGITS[b % 16]] + rest) == [b] + Unhex(rest)
  {
    var s := [HEX_DIGITS[b / 16], HEX_DIGITS[b % 16]] + rest;
    assert s[2..] == rest;
    NibbleOfDigit(b / 16);
    NibbleOfDigit(b % 16);
  }

  /** Hex and Unhex are inverse: the rendering loses nothing. */
  lemma {:induction false} UnhexHex(bytes: seq<Byte>)
    ensures Unhex(Hex(bytes)) == bytes
  {
    if bytes != [] {
      UnhexPair(bytes[0], Hex(bytes[1..]));
      UnhexHex(bytes[1..]);
      assert bytes == [bytes[0]] + bytes[1..];
    }
  }

  /** `compute_content_hash(content)`: the hexadecimal MD5 of the content. */
  function ComputeContentHash(md5: string -> Digest, content: string): (h: string)
    ensures |h| == 32
  {
    Hex(md5(content))
  }

  /** A fingerprint is written only with the digits 0-9 and a-f. */
  lemma ContentHashIsLowerHex(md5: string -> Digest, content: string)
    ensures IsLowerHex(ComputeContentHash(md5, content))
  {
    HexIsLowerHex(md5(content));
  }

  /**
   * Two contents have the same fingerprint exactly when MD5 gives them the
   * same digest: change detection is as sensitive as MD5 itself.
   */
  lemma SameHashIffSameDigest(md5: string -> Digest, a: string, b: string)
    ensures ComputeContentHash(md5, a) == ComputeContentHash(md5, b) <==> md5(a) == md5(b)
  {
    if ComputeContentHash(md5, a) == ComputeContentHash(md5, b) {
      UnhexHex(md5(a));
      UnhexHex(md5(b));
    }
  }

  /** A fingerprint is never the empty string that marks a registered but never ingested document. */
  lemma HashIsNeverEmpty(md5: string -> Digest, content: string)
    ensures ComputeContentHash(md5, content) != ""
  {
    assert |ComputeContentHash(md5, content)| == 32;
  }
}
