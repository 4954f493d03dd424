// The six-state machine of the firmware (mcubridge-library-arduino/src/fsm).
module McuFsm {

  datatype State = Startup | Unsynchronized | Handshake | Synchronized | AwaitingAck | Fault

  datatype Event =
    | HandshakeStart | HandshakeComplete | HandshakeFailed | SendCritical | AckReceived | Timeout | Reset

  // Events a state does not list leave it where it is.
  function OnEvent(s: State, e: Event): State
  {
    match (s, e)
    case (_, Reset) => Unsynchronized
    case (Fault, _) => Fault
    case (_, HandshakeFailed) => Startup
    case (_, Timeout) => Fault
    case (Unsynchronized, HandshakeStart) => Handshake
    case (Handshake, HandshakeComplete) => Synchronized
    case (Synchronized, SendCritical) => AwaitingAck
    case (AwaitingAck, AckReceived) => Synchronized
    case _ => s
  }

  predicate IsSynchronized(s: State) { s == Synchronized || s == AwaitingAck }

  predicate IsAwaitingAck(s: State) { s == AwaitingAck }
}
