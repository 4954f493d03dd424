// Command and status numbers of the serial protocol (tools/protocol/mcubridge.proto)
// and the classifications both ends share.
module Protocol {
  import opened BigEndian

  type Bytes = seq<Byte>

  const U64: nat := 0x1_0000_0000_0000_0000

  const STATUS_OK := 48
  const STATUS_ERROR := 49
  const STATUS_CMD_UNKNOWN := 50
  const STATUS_MALFORMED := 51
  const STATUS_CRC_MISMATCH := 53
  const STATUS_TIMEOUT := 54
  const STATUS_NOT_IMPLEMENTED := 55
  const STATUS_ACK := 56

  const CMD_LINK_SYNC := 68
  const CMD_LINK_SYNC_RESP := 69
  const CMD_LINK_RESET := 70
  const CMD_LINK_RESET_RESP := 71

  const MAX_PAYLOAD := 64
  const HANDSHAKE_NONCE_LENGTH := 16
  const TAG_LENGTH := 16
  const NONCE_SIZE := 12

  // Status codes 48..63 and system commands 64..79 are exempt from encryption.
  predicate IsSystem(cmd: int)
  {
    48 <= cmd <= 63 || 64 <= cmd <= 79
  }

  predicate RequiresAck(cmd: int)
  {
    cmd in {74, 76, 80, 81, 82, 96, 112, 131, 144, 176, 179, 180}
  }

  function Take(b: Bytes, n: nat): (r: Bytes)
    ensures |r| <= n && |r| <= |b|
  {
    if |b| <= n then b else b[..n]
  }
}
