/** The keyed hash `createHmac(algorithm, key).update(msg).digest()`. The hash
    itself is not modelled: every operation that needs it takes it as a
    parameter, and `None` stands for a call that throws. */
module Hmac {
  import opened Wrappers
  import opened TotpTypes
  import opened Radix

  type HmacFn = (Algorithm, seq<Byte>, seq<Byte>) -> Option<seq<Byte>>

  /** Digest sizes of SHA-1, SHA-256 and SHA-512 in bytes. */
  function DigestLength(a: Algorithm): nat
  {
    match a
    case SHA1 => 20
    case SHA256 => 32
    case SHA512 => 64
  }

  /** A keyed hash whose successful digests have the algorithm's size. */
  ghost predicate HonestHmac(hmac: HmacFn)
  {
    forall a, key, msg :: hmac(a, key, msg).Some? ==> |hmac(a, key, msg).value| == DigestLength(a)
  }

  /** A keyed hash that does not throw for this algorithm and key. */
  ghost predicate NeverFails(hmac: HmacFn, a: Algorithm, key: seq<Byte>)
  {
    forall msg :: hmac(a, key, msg).Some?
  }
}
