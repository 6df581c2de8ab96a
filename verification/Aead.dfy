/** AES-256-GCM as an ideal AEAD (sections 2.1, 2.2 and 5.2 of RFC 5116).
    Nothing below depends on how the cipher works: every result quantifies over
    all values of the type `Aead`. */
module Aead {
  import opened Wrappers

  newtype byte = x: int | 0 <= x < 256

  const KEY_SIZE: int := 32
  const NONCE_SIZE: int := 12
  const TAG_SIZE: int := 16

  /** `seal(key, nonce, plaintext, ad)` and `open(key, nonce, ciphertext, ad)`. */
  datatype Algorithm = Algorithm(
    seal: (seq<byte>, seq<byte>, seq<byte>, seq<byte>) -> seq<byte>,
    open: (seq<byte>, seq<byte>, seq<byte>, seq<byte>) -> Option<seq<byte>>)

  ghost predicate IsAead(g: Algorithm) {
    && (forall k, n, p, ad :: |k| == KEY_SIZE && |n| == NONCE_SIZE ==>
          && |g.seal(k, n, p, ad)| == |p| + TAG_SIZE
          && g.open(k, n, g.seal(k, n, p, ad), ad) == Some(p))
    && (forall k, n, c, ad :: g.open(k, n, c, ad).Some? ==>
          |c| == |g.open(k, n, c, ad).value| + TAG_SIZE)
  }

  type Aead = g: Algorithm | IsAead(g) ghost witness Transparent()

  /** An algorithm that meets the interface without hiding anything; it shows
      that the type above is inhabited and is used for nothing else. */
  function Transparent(): Algorithm {
    Algorithm(
      (k, n, p, ad) => p + seq(TAG_SIZE, _ => 0 as byte),
      (k, n, c: seq<byte>, ad) => if |c| < TAG_SIZE then None else Some(c[..|c| - TAG_SIZE]))
  }
}
