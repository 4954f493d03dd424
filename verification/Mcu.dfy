// What each step of the firmware does to its state, as functions. The class in
// BridgeClass.dfy performs these steps in place on a pooled queue.
module Mcu {
  import opened BigEndian
  import opened Wrappers
  import opened Protocol
  import opened Crypto
  import opened Frames
  import Nonce
  import Fsm = McuFsm

  // Compile-time sizes and the decoding library.
  datatype Platform = Platform(
    crypto: Crypto,
    capacity: nat,
    historySize: nat,
    decodeSync: Bytes -> Option<(Bytes, Bytes)>,
    decodeAck: Bytes -> Option<int>,
    decodeConfig: Bytes -> Option<nat>)

  // A frame awaiting acknowledgement.
  datatype Pending = Pending(cmd: int, seqId: int, payload: Bytes)

  // What can be seen of a run from outside, in order.
  datatype Entry =
    | Moved(event: Fsm.Event, source: Fsm.State, target: Fsm.State)
    | SafePins
    | SyncAccepted(nonce: Bytes)
    | Sealed(counter: nat)
    | Opened(counter: nat)
    | Arrived(seqId: int, duplicate: bool)
    | HistoryCleared
    | Handled(cmd: int, seqId: int, routed: bool)

  datatype Trace = Start | Then(before: Trace, entry: Entry)

  datatype State = State(
    fsm: Fsm.State,
    secret: Bytes,
    key: Bytes,
    tx: nat,
    rx: nat,
    txEnabled: bool,
    queue: seq<Pending>,
    retryCount: nat,
    retryLimit: nat,
    lastCmd: int,
    history: seq<int>,
    wire: seq<Envelope>,
    trace: Trace)
  {
    predicate Secured() { Fsm.IsSynchronized(fsm) && secret != [] }
  }

  // ---- Sending ----

  function Log(s: State, e: Entry): State { s.(trace := Then(s.trace, e)) }

  function Send(s: State, e: Envelope): State { s.(wire := s.wire + [e]) }

  // Entering Fault forces the pins safe.
  function Move(s: State, e: Fsm.Event): State
  {
    var next := Fsm.OnEvent(s.fsm, e);
    var s1 := Log(s.(fsm := next), Moved(e, s.fsm, next));
    if next == Fsm.Fault && s.fsm != Fsm.Fault then Log(s1, SafePins) else s1
  }

  function EnterSafeState(s: State): State
  {
    Move(Log(s, SafePins).(txEnabled := false, queue := []), Fsm.Reset)
  }

  // _transmit: the counter advances whether or not sealing succeeds.
  function Transmit(p: Platform, s: State, cmd: int, seqId: int, payload: Bytes): State
  {
    if s.Secured() && !IsSystem(cmd) then
      var c := (s.tx + 1) % U64;
      var s1 := Log(s.(tx := c), Sealed(c));
      match p.crypto.seal(s.key, Nonce.Firmware(c), cmd, seqId, payload)
      case None => s1
      case Some(text) => Send(s1, Envelope(cmd, seqId, Nonce.Firmware(c), Blob(text)))
    else
      Send(s, Envelope(cmd, seqId, seq(NONCE_SIZE, _ => 0), Blob(payload)))
  }

  function Flush(p: Platform, s: State): State
  {
    if s.queue == [] || !s.txEnabled then s
    else
      var f := s.queue[0];
      Transmit(p, Move(s.(lastCmd := f.cmd, retryCount := 0), Fsm.SendCritical), f.cmd, f.seqId, f.payload)
  }

  function Retransmit(p: Platform, s: State): State
  {
    if s.queue == [] then s else Transmit(p, s, s.queue[0].cmd, s.queue[0].seqId, s.queue[0].payload)
  }

  function Enqueue(p: Platform, s: State, f: Pending): State
  {
    var s1 := s.(queue := s.queue + [f]);
    if Fsm.IsAwaitingAck(s.fsm) then s1 else Flush(p, s1)
  }

  // sendFrame
  function SendFrame(p: Platform, s: State, cmd: int, seqId: int, payload: Bytes): (State, bool)
  {
    if !s.txEnabled && !IsSystem(cmd) then (s, false)
    else if RequiresAck(cmd) then
      if |s.queue| >= p.capacity then (s, false)
      else (Enqueue(p, s, Pending(cmd, seqId, Take(payload, MAX_PAYLOAD))), true)
    else (Transmit(p, s, cmd, seqId, Take(payload, MAX_PAYLOAD)), true)
  }

  // sendSinglePass
  function SendPlain(s: State, cmd: int, seqId: int, body: Body): (State, bool)
  {
    if !s.txEnabled && !IsSystem(cmd) then (s, false)
    else (Send(s, Envelope(cmd, seqId, [], body)), true)
  }

  // send: encoded is the serialised message, None if it does not encode.
  function SendMessage(p: Platform, s: State, cmd: int, seqId: int, body: Body, encoded: Option<Bytes>): (State, bool)
  {
    if s.Secured() && !IsSystem(cmd) then
      if RequiresAck(cmd) then
        if |s.queue| >= p.capacity || encoded.None? then (s, false)
        else (Enqueue(p, s, Pending(cmd, seqId, Take(encoded.value, MAX_PAYLOAD))), true)
      else if encoded.None? then (s, false)
      else (Transmit(p, s, cmd, seqId, Take(encoded.value, MAX_PAYLOAD)), true)
    else SendPlain(s, cmd, seqId, body)
  }

  // A status the firmware fails to send drives it to the safe state.
  function EmitStatus(p: Platform, s: State, code: int): State
  {
    var (s1, ok) := SendFrame(p, s, code, 0, []);
    if ok then s1 else EnterSafeState(s1)
  }

  function Acknowledge(s: State, cmd: int, seqId: int): State
  {
    SendPlain(s, STATUS_ACK, seqId, Ack(cmd)).0
  }

  // Sends made by the sketch, by a service or by a command's own handler.
  datatype SendOp =
    | Frame(cmd: int, seqId: int, payload: Bytes)
    | Packet(cmd: int, seqId: int, body: Body, encoded: Option<Bytes>)

  function Apply(p: Platform, s: State, op: SendOp): State
  {
    match op
    case Frame(cmd, seqId, payload) => SendFrame(p, s, cmd, seqId, payload).0
    case Packet(cmd, seqId, body, encoded) => SendMessage(p, s, cmd, seqId, body, encoded).0
  }

  function ApplyAll(p: Platform, s: State, ops: seq<SendOp>): State
    decreases |ops|
  {
    if ops == [] then s else ApplyAll(p, Apply(p, s, ops[0]), ops[1..])
  }

  // ---- Timers and acknowledgements ----

  function AckTimeout(p: Platform, s: State): State
  {
    if !Fsm.IsAwaitingAck(s.fsm) then s
    else
      var s1 := s.(retryCount := (s.retryCount + 1) % 256);
      if s1.retryCount >= s1.retryLimit then Move(s1, Fsm.Timeout).(txEnabled := false, queue := [])
      else Retransmit(p, s1)
  }

  function HandleAck(p: Platform, s: State, cmd: int): State
  {
    if !Fsm.IsAwaitingAck(s.fsm) || cmd != s.lastCmd then s
    else Flush(p, Move(s.(queue := []), Fsm.AckReceived))
  }

  function HandshakeTimeout(s: State): State
  {
    if Fsm.IsSynchronized(s.fsm) then s else Move(s, Fsm.Timeout).(txEnabled := false)
  }

  function RxDedupe(s: State): State { Log(s.(history := []), HistoryCleared) }

  // ---- Handshake ----

  // handshake_authenticate: an absent tag is accepted, a present one must match.
  predicate TagAccepted(p: Platform, s: State, nonce: Bytes, tag: Bytes)
  {
    tag == [] || tag == p.crypto.tag(s.secret, nonce)
  }

  function HandleLinkSync(p: Platform, s: State, seqId: int, nonce: Bytes, tag: Bytes): State
  {
    var n := Take(nonce, HANDSHAKE_NONCE_LENGTH);
    if s.secret != [] && !TagAccepted(p, s, n, tag) then
      EmitStatus(p, Move(s, Fsm.HandshakeFailed), STATUS_ERROR)
    else
      var s1 := if s.secret == [] then s
                else Log(s.(key := p.crypto.sessionKey(s.secret, n), tx := 0, rx := 0), SyncAccepted(n));
      var reply := if s.secret == [] then [] else p.crypto.tag(s.secret, n);
      var s2 := Move(Move(s1, Fsm.HandshakeStart), Fsm.HandshakeComplete);
      SendMessage(p, s2, CMD_LINK_SYNC_RESP, seqId, Sync(n, reply), None).0
  }

  // The retry limit a LINK_RESET carries, if any.
  function ConfigOf(p: Platform, body: Body): Option<nat>
  {
    match body
    case Blob(data) => p.decodeConfig(data)
    case _ => None
  }

  function HandleLinkReset(p: Platform, s: State, env: Envelope): State
  {
    var limit := ConfigOf(p, env.body);
    var s1 := if limit.Some? then s.(retryLimit := limit.value % 256) else s;
    SendFrame(p, Move(s1, Fsm.Reset), CMD_LINK_RESET_RESP, env.seqId, []).0
  }

  // ---- Dispatch ----

  // How a command's handler is wired: acknowledged or not, repeated on a
  // duplicate or not, with or without a payload to decode.
  datatype Kind =
    | StatusAck | LinkSync | LinkReset | Xoff | Xon
    | Query                  // no acknowledgement, a duplicate repeats the last frame
    | Read                   // the same, with a payload
    | Service(typed: bool)   // acknowledged, a duplicate is dropped
    | Unrouted               // no acknowledgement and no duplicate check

  // The dispatch table, in ascending command order.
  const TABLE: seq<(int, Kind)> := [
    (56, StatusAck), (64, Query), (66, Query), (68, LinkSync), (70, LinkReset), (72, Query),
    (74, Service(true)), (76, Service(true)), (78, Xoff), (79, Xon), (80, Service(true)), (81, Service(true)),
    (82, Service(true)), (83, Read), (84, Read), (96, Service(true)), (114, Service(true)), (131, Service(true)),
    (132, Unrouted), (133, Unrouted), (144, Service(true)), (145, Service(true)), (146, Service(true)),
    (147, Service(true)), (163, Service(true)), (165, Service(true)), (166, Service(true)), (176, Service(false)),
    (177, Read), (179, Service(false)), (180, Service(true))]

  // A linear scan of the table.
  function Lookup(table: seq<(int, Kind)>, cmd: int): Option<Kind>
  {
    if table == [] then None
    else if table[0].0 == cmd then Some(table[0].1)
    else Lookup(table[1..], cmd)
  }

  predicate NeedsAck(k: Kind) { !k.Query? && !k.Read? && !k.Unrouted? }
  predicate RepeatsOnDuplicate(k: Kind) { k.Query? || k.Read? }

  // What the handler body itself decides: whether its payload decodes, whether a
  // sketch handler for unknown commands is installed, and what it sends.
  datatype Effects = Effects(decodes: bool, userHandler: bool, sends: seq<SendOp>)

  function RunHandler(p: Platform, s: State, k: Kind, env: Envelope, fx: Effects): State
  {
    var h := Log(s, Handled(env.cmd, env.seqId, !k.Unrouted?));
    match k
    case StatusAck =>
      (match env.body
       case Ack(cmd) => HandleAck(p, h, cmd)
       case Blob(data) =>
         if p.decodeAck(data).None? then EmitStatus(p, s, STATUS_MALFORMED)
         else HandleAck(p, h, p.decodeAck(data).value)
       case _ => EmitStatus(p, s, STATUS_MALFORMED))
    case LinkSync =>
      (match env.body
       case Sync(nonce, tag) => HandleLinkSync(p, h, env.seqId, nonce, tag)
       case Blob(data) =>
         if p.decodeSync(data).None? then EmitStatus(p, s, STATUS_MALFORMED)
         else HandleLinkSync(p, h, env.seqId, p.decodeSync(data).value.0, p.decodeSync(data).value.1)
       case _ => EmitStatus(p, s, STATUS_MALFORMED))
    case LinkReset => HandleLinkReset(p, h, env)
    case Xoff => h.(txEnabled := false)
    case Xon => h.(txEnabled := true)
    case Query => ApplyAll(p, h, fx.sends)
    case Service(typed) =>
      if typed && !fx.decodes then EmitStatus(p, s, STATUS_MALFORMED) else ApplyAll(p, h, fx.sends)
    case Read =>
      if !fx.decodes then EmitStatus(p, s, STATUS_MALFORMED) else ApplyAll(p, h, fx.sends)
    case Unrouted =>
      if !fx.decodes then EmitStatus(p, s, STATUS_MALFORMED) else ApplyAll(p, h, fx.sends)
  }

  // _preDispatch and the handler behind it.
  function Route(p: Platform, s: State, k: Kind, env: Envelope, dup: bool, fx: Effects): State
  {
    if k.Unrouted? then RunHandler(p, s, k, env, fx)
    else
      var s1 := if NeedsAck(k) then Acknowledge(s, env.cmd, env.seqId) else s;
      if dup then (if RepeatsOnDuplicate(k) then Retransmit(p, s1) else s1)
      else RunHandler(p, s1, k, env, fx)
  }

  function Remember(p: Platform, history: seq<int>, seqId: int): seq<int>
  {
    var kept := if |history| >= p.historySize && history != [] then history[1..] else history;
    kept + [seqId]
  }

  predicate Permitted(s: State, cmd: int)
  {
    s.secret == [] || IsSystem(cmd) || Fsm.IsSynchronized(s.fsm)
  }

  function Dispatch(p: Platform, s: State, env: Envelope, fx: Effects): State
  {
    var dup := env.seqId in s.history;
    var s0 := Log(s, Arrived(env.seqId, dup));
    var s1 := if dup then s0 else s0.(history := Remember(p, s.history, env.seqId));
    if !Permitted(s1, env.cmd) then SendFrame(p, s1, STATUS_ERROR, env.seqId, []).0
    else if env.cmd == STATUS_OK then Acknowledge(s1, env.cmd, env.seqId)
    else if env.cmd == STATUS_MALFORMED then EnterSafeState(s1)
    else
      match Lookup(TABLE, env.cmd)
      case Some(k) => Route(p, s1, k, env, dup, fx)
      case None =>
        if fx.userHandler then ApplyAll(p, Log(s1, Handled(env.cmd, env.seqId, false)), fx.sends)
        else EmitStatus(p, s1, STATUS_ERROR)
  }

  // The nonce field is a fixed array of twelve bytes, zero where the sender set none.
  function NonceField(env: Envelope): (n: Bytes)
    ensures |n| == NONCE_SIZE
  {
    Take(env.nonce + seq(NONCE_SIZE, _ => 0), NONCE_SIZE)
  }

  // _handleReceivedFrame: None is a frame that does not parse.
  function Receive(p: Platform, s: State, frame: Option<Envelope>, fx: Effects): State
  {
    match frame
    case None => EmitStatus(p, s, STATUS_MALFORMED)
    case Some(env) =>
      if s.Secured() && !IsSystem(env.cmd) then
        if |Cipher(env)| < TAG_LENGTH then EmitStatus(p, s, STATUS_ERROR)
        else
          var text := p.crypto.open(s.key, NonceField(env), env.cmd, env.seqId, Cipher(env));
          var (newer, counter) := Nonce.ValidateFrame(NonceField(env), s.rx);
          if text.None? || !newer then EmitStatus(p, s, STATUS_ERROR)
          else Dispatch(p, Log(s.(rx := counter), Opened(counter)), env.(body := Blob(text.value)), fx)
      else Dispatch(p, s, env, fx)
  }

  // begin: the sketch restarts the link, possibly with another secret.
  function Begin(s: State, secret: Bytes, selfTestsPass: bool): State
  {
    var s1 := Move(s.(secret := Take(secret, 64)), Fsm.Reset);
    var s2 := if selfTestsPass then s1 else EnterSafeState(s1);
    s2.(txEnabled := true)
  }

  // ---- Runs ----

  datatype Input =
    | Incoming(frame: Option<Envelope>, fx: Effects)
    | App(op: SendOp)
    | AckTimer
    | HandshakeTimer
    | DedupeTimer
    | Unsafe
    | Restart(secret: Bytes, selfTestsPass: bool)

  function Step(p: Platform, s: State, i: Input): State
  {
    match i
    case Incoming(frame, fx) => Receive(p, s, frame, fx)
    case App(op) => Apply(p, s, op)
    case AckTimer => AckTimeout(p, s)
    case HandshakeTimer => HandshakeTimeout(s)
    case DedupeTimer => RxDedupe(s)
    case Unsafe => EnterSafeState(s)
    case Restart(secret, ok) => Begin(s, secret, ok)
  }

  function Run(p: Platform, s: State, inputs: seq<Input>): State
    decreases |inputs|
  {
    if inputs == [] then s else Step(p, Run(p, s, inputs[..|inputs| - 1]), inputs[|inputs| - 1])
  }

  const DEFAULT_RETRY_LIMIT := 5

  // A constructed object on which begin(secret) has run.
  function Booted(secret: Bytes, selfTestsPass: bool): State
  {
    Begin(State(Fsm.Startup, [], [], 0, 0, true, [], 0, DEFAULT_RETRY_LIMIT, 0, [], [], Start), secret, selfTestsPass)
  }
}
