/** The hashing primitives of src/signing.rs. SHA-256 and HMAC-SHA256 are not
    modelled: a `Crypto` value carries them as opaque functions, so every
    result below holds for whatever functions are plugged in. Hex encoding is
    modelled exactly. */
module Crypto {
  import opened Bytes

  /** `sha256` digests a string's bytes; `hmacSha256` keys a MAC with raw
      bytes and authenticates a string's bytes (the argument types of
      `sha256_hex` and `hmac_sha256`). */
  datatype Crypto = Crypto(sha256: string -> seq<byte>, hmacSha256: (seq<byte>, string) -> seq<byte>)

  /** Both primitives produce 32-byte outputs, as SHA-256 does. */
  ghost predicate DigestSized(c: Crypto) {
    && (forall data :: |c.sha256(data)| == 32)
    && (forall key, data :: |c.hmacSha256(key, data)| == 32)
  }

  /** The idealisation under which tampering is detectable: no two different
      inputs give the same digest, and no two different key/message pairs give
      the same MAC. */
  ghost predicate CollisionFree(c: Crypto) {
    && (forall x, y :: c.sha256(x) == c.sha256(y) ==> x == y)
    && (forall k1, x, k2, y :: c.hmacSha256(k1, x) == c.hmacSha256(k2, y) ==> k1 == k2 && x == y)
  }

  /** `sha256_hex`: the lowercase hex form of the digest. */
  function Sha256Hex(c: Crypto, data: string): (h: string)
    ensures |h| == 2 * |c.sha256(data)|
    ensures forall i :: 0 <= i < |h| ==> IsLowerHex(h[i])
  {
    HexEncode(c.sha256(data))
  }

  /** `hmac_sha256`: with SHA-256 as the hash, a 32-byte MAC. */
  function HmacSha256(c: Crypto, key: seq<byte>, data: string): (mac: seq<byte>)
    ensures DigestSized(c) ==> |mac| == 32
  {
    c.hmacSha256(key, data)
  }

  /** `hmac_sha256_hex`: the lowercase hex form of the MAC. */
  function HmacSha256Hex(c: Crypto, key: seq<byte>, data: string): (h: string)
    ensures |h| == 2 * |HmacSha256(c, key, data)|
    ensures forall i :: 0 <= i < |h| ==> IsLowerHex(h[i])
  {
    HexEncode(HmacSha256(c, key, data))
  }

  /** With a collision-free digest, equal hex digests mean equal inputs. */
  lemma Sha256HexInjective(c: Crypto, x: string, y: string)
    requires CollisionFree(c)
    ensures Sha256Hex(c, x) == Sha256Hex(c, y) ==> x == y
  {
    HexInjective(c.sha256(x), c.sha256(y));
  }

  /** With a collision-free MAC, equal hex MACs mean equal keys and messages. */
  lemma HmacSha256HexInjective(c: Crypto, k1: seq<byte>, x: string, k2: seq<byte>, y: string)
    requires CollisionFree(c)
    ensures HmacSha256Hex(c, k1, x) == HmacSha256Hex(c, k2, y) ==> k1 == k2 && x == y
  {
    HexInjective(c.hmacSha256(k1, x), c.hmacSha256(k2, y));
  }
}
