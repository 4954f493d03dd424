// Frames as both ends see them once the codec has done its work.
module Frames {
  import opened BigEndian
  import opened Protocol

  // The payload variants of an envelope that the link layer looks into.
  datatype Body =
    | Empty
    | Blob(data: Bytes)
    | Sync(nonce: Bytes, tag: Bytes)
    | Ack(command: int)
    | Config(retryLimit: nat)
    | Message(fields: Bytes)

  datatype Envelope = Envelope(cmd: int, seqId: int, nonce: Bytes, body: Body)

  // The bytes of the encrypted-payload field; other payload variants hold none.
  function Cipher(env: Envelope): Bytes
  {
    match env.body case Blob(data) => data case _ => []
  }
}
