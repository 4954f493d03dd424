// The cryptographic library, as functions the rest of the model is parametric in.
module Crypto {
  import opened BigEndian
  import opened Protocol
  import opened Wrappers

  // tag(secret, nonce): HMAC under an HKDF-derived key, cut to 16 bytes.
  // sessionKey(secret, nonce): HKDF with the nonce as salt.
  // seal/open(key, nonce, command, sequence id, text): AEAD with the header as
  // associated data; None is a library error or a failed authentication.
  datatype Crypto = Crypto(
    tag: (Bytes, Bytes) -> Bytes,
    sessionKey: (Bytes, Bytes) -> Bytes,
    seal: (Bytes, Bytes, int, int, Bytes) -> Option<Bytes>,
    open: (Bytes, Bytes, int, int, Bytes) -> Option<Bytes>)
  {
    ghost predicate Correct()
    {
      && (forall s: Bytes, n: Bytes :: |tag(s, n)| == TAG_LENGTH)
      && (forall s: Bytes, n: Bytes :: |sessionKey(s, n)| == 32)
      && (forall k: Bytes, n: Bytes, c: int, q: int, t: Bytes ::
            seal(k, n, c, q, t).Some? ==>
              && |seal(k, n, c, q, t).value| == |t| + TAG_LENGTH
              && open(k, n, c, q, seal(k, n, c, q, t).value) == Some(t))
    }
  }
}
