// What can be seen of the firmware's steps on the wire, in the queue and in the log of handlers:
// that a handler runs exactly when it should, that its sends follow, and that a timeout resends.
module McuEffects {
  import opened BigEndian
  import opened Wrappers
  import opened Protocol
  import opened Crypto
  import opened Frames
  import opened Mcu
  import opened McuRuns
  import opened McuRetry
  import Nonce
  import Fsm = McuFsm

  // Every handler that ran, in order: command, sequence id, behind the common dispatcher or not.
  function Handlings(t: Trace): seq<(int, int, bool)>
  {
    match t
    case Start => []
    case Then(b, Handled(cmd, id, routed)) => Handlings(b) + [(cmd, id, routed)]
    case Then(b, _) => Handlings(b)
  }

  // The wire only grows.
  predicate Grows(a: seq<Envelope>, b: seq<Envelope>) { |a| <= |b| && b[..|a|] == a }

  lemma GrowsTrans(a: seq<Envelope>, b: seq<Envelope>, c: seq<Envelope>)
    requires Grows(a, b) && Grows(b, c)
    ensures Grows(a, c)
  {
    assert c[..|a|] == c[..|b|][..|a|];
  }

  // No handler ran, and nothing was taken off the wire.
  predicate Still(s: State, s': State) { Handlings(s'.trace) == Handlings(s.trace) && Grows(s.wire, s'.wire) }

  lemma StillTrans(a: State, b: State, c: State)
    requires Still(a, b) && Still(b, c)
    ensures Still(a, c)
  {
    GrowsTrans(a.wire, b.wire, c.wire);
  }

  lemma TransmitStill(p: Platform, s: State, cmd: int, seqId: int, payload: Bytes)
    ensures Still(s, Transmit(p, s, cmd, seqId, payload))
  {
  }

  lemma MoveStill(s: State, e: Fsm.Event)
    ensures Still(s, Move(s, e)) && Move(s, e).wire == s.wire
  {
  }

  lemma FlushStill(p: Platform, s: State)
    ensures Still(s, Flush(p, s))
  {
    if s.queue != [] && s.txEnabled {
      hide Still, Transmit, Move;
      var f := s.queue[0];
      var s1 := s.(lastCmd := f.cmd, retryCount := 0);
      Same(s, s1);
      MoveStill(s1, Fsm.SendCritical);
      TransmitStill(p, Move(s1, Fsm.SendCritical), f.cmd, f.seqId, f.payload);
      StillTrans(s, s1, Move(s1, Fsm.SendCritical));
      StillTrans(s, Move(s1, Fsm.SendCritical), Flush(p, s));
    } else {
      Same(s, s);
    }
  }

  lemma Same(s: State, s': State)
    requires s'.wire == s.wire && s'.trace == s.trace
    ensures Still(s, s')
  {
  }

  lemma RetransmitStill(p: Platform, s: State)
    ensures Still(s, Retransmit(p, s))
  {
    if s.queue != [] { TransmitStill(p, s, s.queue[0].cmd, s.queue[0].seqId, s.queue[0].payload); }
  }

  lemma EnqueueStill(p: Platform, s: State, f: Pending)
    ensures Still(s, Enqueue(p, s, f))
  {
    hide Still, Flush;
    var s1 := s.(queue := s.queue + [f]);
    Same(s, s1);
    FlushStill(p, s1);
    StillTrans(s, s1, Flush(p, s1));
  }

  lemma ApplyStill(p: Platform, s: State, op: SendOp)
    ensures Still(s, Apply(p, s, op))
  {
    hide Enqueue, Transmit;
    forall f: Pending { EnqueueStill(p, s, f); }
    forall payload: Bytes { TransmitStill(p, s, op.cmd, op.seqId, payload); }
  }

  lemma {:induction false} ApplyAllStill(p: Platform, s: State, ops: seq<SendOp>)
    ensures Still(s, ApplyAll(p, s, ops))
    decreases |ops|
  {
    if ops != [] {
      hide Still, Apply;
      ApplyStill(p, s, ops[0]);
      ApplyAllStill(p, Apply(p, s, ops[0]), ops[1..]);
      StillTrans(s, Apply(p, s, ops[0]), ApplyAll(p, s, ops));
    }
  }

  lemma FrameStill(p: Platform, s: State, cmd: int, seqId: int, payload: Bytes)
    ensures Still(s, SendFrame(p, s, cmd, seqId, payload).0)
  {
    hide SendFrame;
    ApplyStill(p, s, Frame(cmd, seqId, payload));
  }

  lemma StatusStill(p: Platform, s: State, code: int)
    ensures Still(s, EmitStatus(p, s, code))
  {
    hide SendFrame, Still, EnterSafeState;
    var s1 := SendFrame(p, s, code, 0, []).0;
    FrameStill(p, s, code, 0, []);
    SafeStill(s1);
    StillTrans(s, s1, EnterSafeState(s1));
  }

  lemma SafeStill(s: State)
    ensures Still(s, EnterSafeState(s))
  {
  }

  lemma AckStill(p: Platform, s: State, cmd: int)
    ensures Still(s, HandleAck(p, s, cmd))
  {
    hide Flush, Move, Still;
    var s1 := s.(queue := []);
    Same(s, s);
    Same(s, s1);
    MoveStill(s1, Fsm.AckReceived);
    FlushStill(p, Move(s1, Fsm.AckReceived));
    StillTrans(s, s1, Move(s1, Fsm.AckReceived));
    StillTrans(s, Move(s1, Fsm.AckReceived), Flush(p, Move(s1, Fsm.AckReceived)));
  }

  lemma SyncStill(p: Platform, s: State, seqId: int, nonce: Bytes, tag: Bytes)
    ensures Still(s, HandleLinkSync(p, s, seqId, nonce, tag))
  {
    hide EmitStatus, SendMessage, Move, Still;
    var n := Take(nonce, HANDSHAKE_NONCE_LENGTH);
    var failed := Move(s, Fsm.HandshakeFailed);
    MoveStill(s, Fsm.HandshakeFailed);
    StatusStill(p, failed, STATUS_ERROR);
    StillTrans(s, failed, EmitStatus(p, failed, STATUS_ERROR));
    var s1 := if s.secret == [] then s
              else Log(s.(key := p.crypto.sessionKey(s.secret, n), tx := 0, rx := 0), SyncAccepted(n));
    AdoptStill(p, s, n);
    var s2 := Move(s1, Fsm.HandshakeStart);
    var s3 := Move(s2, Fsm.HandshakeComplete);
    MoveStill(s1, Fsm.HandshakeStart);
    MoveStill(s2, Fsm.HandshakeComplete);
    var reply := if s.secret == [] then [] else p.crypto.tag(s.secret, n);
    ApplyStill(p, s3, Packet(CMD_LINK_SYNC_RESP, seqId, Sync(n, reply), None));
    StillTrans(s, s1, s2);
    StillTrans(s, s2, s3);
    StillTrans(s, s3, SendMessage(p, s3, CMD_LINK_SYNC_RESP, seqId, Sync(n, reply), None).0);
  }

  lemma AdoptStill(p: Platform, s: State, n: Bytes)
    ensures Still(s, s) && Still(s, Log(s.(key := p.crypto.sessionKey(s.secret, n), tx := 0, rx := 0), SyncAccepted(n)))
  {
  }

  lemma ResetStill(p: Platform, s: State, env: Envelope)
    ensures Still(s, HandleLinkReset(p, s, env))
  {
    hide SendFrame, ConfigOf;
    var limit := ConfigOf(p, env.body);
    var s1 := Move(if limit.Some? then s.(retryLimit := limit.value % 256) else s, Fsm.Reset);
    FrameStill(p, s1, CMD_LINK_RESET_RESP, env.seqId, []);
    StillTrans(s, s1, SendFrame(p, s1, CMD_LINK_RESET_RESP, env.seqId, []).0);
  }

  // ---- When a handler runs ----

  // The payload suits the handler.
  predicate Decodes(p: Platform, k: Kind, body: Body, fx: Effects)
  {
    match k
    case StatusAck => body.Ack? || (body.Blob? && p.decodeAck(body.data).Some?)
    case LinkSync => body.Sync? || (body.Blob? && p.decodeSync(body.data).Some?)
    case Service(typed) => typed ==> fx.decodes
    case Read => fx.decodes
    case Unrouted => fx.decodes
    case _ => true
  }

  // What the dispatcher sees of a frame, if it gets that far.
  function Reached(p: Platform, s: State, env: Envelope): Option<Body>
  {
    if s.Secured() && !IsSystem(env.cmd) then
      if Authentic(p, s, env) && Nonce.ValidateFrame(NonceField(env), s.rx).0
      then Some(Blob(p.crypto.open(s.key, NonceField(env), env.cmd, env.seqId, Cipher(env)).value))
      else None
    else Some(env.body)
  }

  // The dispatcher looks the command up.
  predicate Considered(p: Platform, s: State, env: Envelope)
  {
    Reached(p, s, env).Some? && Permitted(s, env.cmd) && env.cmd != STATUS_OK && env.cmd != STATUS_MALFORMED
  }

  predicate Runs(p: Platform, s: State, env: Envelope, fx: Effects)
  {
    && Considered(p, s, env)
    && match Lookup(TABLE, env.cmd)
       case Some(k) => (k.Unrouted? || env.seqId !in s.history) && Decodes(p, k, Reached(p, s, env).value, fx)
       case None => fx.userHandler
  }

  predicate Routed(cmd: int) { Lookup(TABLE, cmd).Some? && !Lookup(TABLE, cmd).value.Unrouted? }

  // A handler, once entered, is logged once and first.
  lemma HandlerLogs(p: Platform, s: State, k: Kind, env: Envelope, fx: Effects)
    ensures var s' := RunHandler(p, s, k, env, fx);
            && Grows(s.wire, s'.wire)
            && Handlings(s'.trace) == Handlings(s.trace) +
                 (if Decodes(p, k, env.body, fx) then [(env.cmd, env.seqId, !k.Unrouted?)] else [])
  {
    hide HandleAck, HandleLinkSync, HandleLinkReset, ApplyAll, EmitStatus;
    var h := Log(s, Handled(env.cmd, env.seqId, !k.Unrouted?));
    StatusStill(p, s, STATUS_MALFORMED);
    ApplyAllStill(p, h, fx.sends);
    ResetStill(p, h, env);
    forall c: int { AckStill(p, h, c); }
    forall n: Bytes, t: Bytes { SyncStill(p, h, env.seqId, n, t); }
  }

  lemma RouteLogs(p: Platform, s: State, k: Kind, env: Envelope, dup: bool, fx: Effects)
    ensures var s' := Route(p, s, k, env, dup, fx);
            && Grows(s.wire, s'.wire)
            && Handlings(s'.trace) == Handlings(s.trace) +
                 (if (k.Unrouted? || !dup) && Decodes(p, k, env.body, fx) then [(env.cmd, env.seqId, !k.Unrouted?)] else [])
  {
    hide RunHandler, Retransmit, Decodes, Grows;
    var s1 := if NeedsAck(k) then Acknowledge(s, env.cmd, env.seqId) else s;
    Acknowledged(s, env.cmd, env.seqId);
    HandlerLogs(p, s, k, env, fx);
    HandlerLogs(p, s1, k, env, fx);
    RetransmitStill(p, s1);
    GrowsTrans(s.wire, s1.wire, RunHandler(p, s1, k, env, fx).wire);
    GrowsTrans(s.wire, s1.wire, Retransmit(p, s1).wire);
  }

  lemma Acknowledged(s: State, cmd: int, seqId: int)
    ensures Acknowledge(s, cmd, seqId) == s.(wire := s.wire + [Envelope(STATUS_ACK, seqId, [], Ack(cmd))])
    ensures Grows(s.wire, s.wire) && Grows(s.wire, Acknowledge(s, cmd, seqId).wire)
  {
  }

  lemma DispatchLogs(p: Platform, s: State, env: Envelope, fx: Effects)
    ensures var s' := Dispatch(p, s, env, fx);
            var runs := Permitted(s, env.cmd) && env.cmd != STATUS_OK && env.cmd != STATUS_MALFORMED &&
                        (match Lookup(TABLE, env.cmd)
                         case Some(k) => (k.Unrouted? || env.seqId !in s.history) && Decodes(p, k, env.body, fx)
                         case None => fx.userHandler);
            && Grows(s.wire, s'.wire)
            && Handlings(s'.trace) == Handlings(s.trace) + (if runs then [(env.cmd, env.seqId, Routed(env.cmd))] else [])
  {
    hide Route, SendFrame, EmitStatus, EnterSafeState, ApplyAll, Lookup, Decodes;
    var dup := env.seqId in s.history;
    var s0 := Log(s, Arrived(env.seqId, dup));
    var s1 := if dup then s0 else s0.(history := Remember(p, s.history, env.seqId));
    FrameStill(p, s1, STATUS_ERROR, env.seqId, []);
    SafeStill(s1);
    StatusStill(p, s1, STATUS_ERROR);
    ApplyAllStill(p, Log(s1, Handled(env.cmd, env.seqId, false)), fx.sends);
    if Lookup(TABLE, env.cmd).Some? {
      RouteLogs(p, s1, Lookup(TABLE, env.cmd).value, env, dup, fx);
    }
  }

  // Exactly the frames that reach the dispatcher, are permitted, fresh or of a command without
  // duplicate check, and decode, have their handler run, and it runs once.
  lemma HandlerRunsIff(p: Platform, s: State, env: Envelope, fx: Effects)
    ensures var s' := Receive(p, s, Some(env), fx);
            && Grows(s.wire, s'.wire)
            && Handlings(s'.trace) == Handlings(s.trace) +
                 (if Runs(p, s, env, fx) then [(env.cmd, env.seqId, Routed(env.cmd))] else [])
  {
    hide Dispatch, EmitStatus, Lookup, Decodes, Grows, Routed;
    StatusStill(p, s, STATUS_ERROR);
    var body := Reached(p, s, env);
    if s.Secured() && !IsSystem(env.cmd) {
      if body.Some? {
        var counter := Nonce.ValidateFrame(NonceField(env), s.rx).1;
        DispatchLogs(p, Log(s.(rx := counter), Opened(counter)), env.(body := body.value), fx);
      }
    } else {
      DispatchLogs(p, s, env, fx);
    }
  }

  // Every step of every run: the wire only grows, and only a received frame runs a handler.
  lemma StepGrows(p: Platform, s: State, i: Input)
    ensures Grows(s.wire, Step(p, s, i).wire)
    ensures !(i.Incoming? && i.frame.Some?) ==> Handlings(Step(p, s, i).trace) == Handlings(s.trace)
  {
    hide Receive, Apply, Retransmit, EmitStatus, EnterSafeState;
    match i
    case Incoming(frame, fx) =>
      StatusStill(p, s, STATUS_MALFORMED);
      ReceiveNone(p, s, fx);
      if frame.Some? { HandlerRunsIff(p, s, frame.value, fx); }
    case App(op) => ApplyStill(p, s, op);
    case AckTimer => RetransmitStill(p, s.(retryCount := (s.retryCount + 1) % 256));
    case Unsafe => SafeStill(s);
    case Restart(secret, ok) =>
      var s1 := Move(s.(secret := Take(secret, 64)), Fsm.Reset);
      SafeStill(s1);
      GrowsTrans(s.wire, s1.wire, EnterSafeState(s1).wire);
    case _ =>
  }

  lemma ReceiveNone(p: Platform, s: State, fx: Effects)
    ensures Receive(p, s, None, fx) == EmitStatus(p, s, STATUS_MALFORMED)
  {
  }

  // ---- What a send leaves on the wire and in the queue ----

  // The state writes a frame with this command, id and text: sealed under the session key with the
  // next counter, so that it opens to the text, or plainly with a nonce of zeros. A library that
  // cannot seal writes nothing.
  predicate Writes(p: Platform, s: State, wire: seq<Envelope>, cmd: int, seqId: int, text: Bytes)
  {
    if s.Secured() && !IsSystem(cmd) then
      var nonce := Nonce.Firmware((s.tx + 1) % U64);
      if p.crypto.seal(s.key, nonce, cmd, seqId, text).None? then wire == s.wire
      else
        && |wire| == |s.wire| + 1 && wire[..|s.wire|] == s.wire
        && var f := wire[|s.wire|];
           f.cmd == cmd && f.seqId == seqId && f.nonce == nonce && p.crypto.open(s.key, nonce, cmd, seqId, Cipher(f)) == Some(text)
    else wire == s.wire + [Envelope(cmd, seqId, seq(NONCE_SIZE, _ => 0), Blob(text))]
  }

  lemma TransmitWrites(p: Platform, s: State, cmd: int, seqId: int, payload: Bytes)
    requires p.crypto.Correct()
    ensures Writes(p, s, Transmit(p, s, cmd, seqId, payload).wire, cmd, seqId, payload)
    ensures var s' := Transmit(p, s, cmd, seqId, payload); s' == s.(wire := s'.wire, tx := s'.tx, trace := s'.trace)
  {
  }

  // The text an operation offers.
  function Text(op: SendOp): Bytes
  {
    match op
    case Frame(_, _, payload) => Take(payload, MAX_PAYLOAD)
    case Packet(_, _, _, encoded) => if encoded.Some? then Take(encoded.value, MAX_PAYLOAD) else []
  }

  // A message that goes out as it is, without the queue and without encryption.
  predicate Bare(s: State, op: SendOp) { op.Packet? && !(s.Secured() && !IsSystem(op.cmd)) }

  predicate Accepted(p: Platform, s: State, op: SendOp)
  {
    && (op.Frame? || Bare(s, op) ==> s.txEnabled || IsSystem(op.cmd))
    && (op.Packet? && !Bare(s, op) ==> op.encoded.Some?)
    && (!Bare(s, op) && RequiresAck(op.cmd) ==> |s.queue| < p.capacity)
  }

  // One send: refused without a trace; queued at the end, and the front of the queue sent if nothing
  // is awaited; or written at once.
  predicate Sent(p: Platform, s: State, op: SendOp, s': State)
  {
    && s'.key == s.key && s'.secret == s.secret && s'.txEnabled == s.txEnabled && s'.history == s.history
    && if !Accepted(p, s, op) then s' == s
       else if Bare(s, op) then s' == s.(wire := s.wire + [Envelope(op.cmd, op.seqId, [], op.body)])
       else if !RequiresAck(op.cmd) then
         s'.queue == s.queue && s'.fsm == s.fsm && Writes(p, s, s'.wire, op.cmd, op.seqId, Text(op))
       else
         && s'.queue == s.queue + [Pending(op.cmd, op.seqId, Text(op))]
         && if Fsm.IsAwaitingAck(s.fsm) || !s.txEnabled then s'.wire == s.wire && s'.fsm == s.fsm
            else
              && s'.fsm == Fsm.OnEvent(s.fsm, Fsm.SendCritical) && s'.lastCmd == s'.queue[0].cmd && s'.retryCount == 0
              && Writes(p, s, s'.wire, s'.queue[0].cmd, s'.queue[0].seqId, s'.queue[0].payload)
  }

  lemma FlushWrites(p: Platform, s: State)
    requires p.crypto.Correct() && s.queue != [] && s.txEnabled
    ensures var s' := Flush(p, s); var f := s.queue[0];
            && s'.queue == s.queue && s'.key == s.key && s'.secret == s.secret && s'.txEnabled && s'.history == s.history
            && s'.fsm == Fsm.OnEvent(s.fsm, Fsm.SendCritical) && s'.lastCmd == f.cmd && s'.retryCount == 0
            && Writes(p, s, s'.wire, f.cmd, f.seqId, f.payload)
  {
    hide Transmit;
    var f := s.queue[0];
    TransmitWrites(p, Move(s.(lastCmd := f.cmd, retryCount := 0), Fsm.SendCritical), f.cmd, f.seqId, f.payload);
  }

  lemma SendDoes(p: Platform, s: State, op: SendOp)
    requires p.crypto.Correct()
    ensures Sent(p, s, op, Apply(p, s, op))
  {
    hide Transmit, Flush, Writes;
    var f := Pending(op.cmd, op.seqId, Text(op));
    var s1 := s.(queue := s.queue + [f]);
    if s.txEnabled { FlushWrites(p, s1); WritesSame(p, s, s1); }
    TransmitWrites(p, s, op.cmd, op.seqId, Text(op));
    assert Flush(p, s1) == if s.txEnabled then Flush(p, s1) else s1 by { FlushIdle(p, s1); }
  }

  lemma FlushIdle(p: Platform, s: State)
    ensures !s.txEnabled ==> Flush(p, s) == s
  {
  }

  lemma WritesSame(p: Platform, s: State, s1: State)
    requires s1 == s.(queue := s1.queue)
    ensures forall wire: seq<Envelope>, cmd: int, seqId: int, text: Bytes ::
              Writes(p, s, wire, cmd, seqId, text) == Writes(p, s1, wire, cmd, seqId, text)
  {
  }

  // The sends of a handler, one after the other.
  ghost predicate Follows(p: Platform, s: State, ops: seq<SendOp>, s': State)
    decreases |ops|
  {
    if ops == [] then s' == s else exists mid :: Sent(p, s, ops[0], mid) && Follows(p, mid, ops[1..], s')
  }

  lemma {:induction false} SendsFollow(p: Platform, s: State, ops: seq<SendOp>)
    requires p.crypto.Correct()
    ensures Follows(p, s, ops, ApplyAll(p, s, ops))
    decreases |ops|
  {
    if ops != [] {
      hide Sent, Apply;
      SendDoes(p, s, ops[0]);
      SendsFollow(p, Apply(p, s, ops[0]), ops[1..]);
    }
  }

  // What a permitted frame of a listed command is answered with before its handler runs.
  function Answer(k: Kind, env: Envelope): seq<Envelope>
  {
    if NeedsAck(k) then [Envelope(STATUS_ACK, env.seqId, [], Ack(env.cmd))] else []
  }

  predicate SendsItself(k: Kind) { k.Query? || k.Read? || k.Service? || k.Unrouted? }

  // Acknowledged and logged, and otherwise as before.
  predicate Prepared(s: State, env: Envelope, h: State)
    requires Lookup(TABLE, env.cmd).Some?
  {
    && h.wire == s.wire + Answer(Lookup(TABLE, env.cmd).value, env) && h.queue == s.queue
    && h.fsm == s.fsm && h.key == s.key && h.secret == s.secret && h.txEnabled == s.txEnabled && h.tx == s.tx
    && Handlings(h.trace) == Handlings(s.trace) + [(env.cmd, env.seqId, Routed(env.cmd))]
  }

  // A service, query or read command: acknowledged where it should be, and then, if its handler
  // runs, all the handler's sends follow in order, on the wire or in the queue.
  lemma HandlerSends(p: Platform, s: State, env: Envelope, fx: Effects)
    requires p.crypto.Correct() && Runs(p, s, env, fx) && Lookup(TABLE, env.cmd).Some?
    requires SendsItself(Lookup(TABLE, env.cmd).value)
    ensures exists h :: Prepared(s, env, h) && Follows(p, h, fx.sends, Receive(p, s, Some(env), fx))
  {
    hide Lookup, ApplyAll, EmitStatus, SendFrame, Follows, Dispatch, RunHandler, Acknowledge, Decodes;
    var k := Lookup(TABLE, env.cmd).value;
    var body := Reached(p, s, env).value;
    var rx := if s.Secured() && !IsSystem(env.cmd) then Nonce.ValidateFrame(NonceField(env), s.rx).1 else s.rx;
    var r := if s.Secured() && !IsSystem(env.cmd) then Log(s.(rx := rx), Opened(rx)) else s;
    var dup := env.seqId in s.history;
    var a := Log(r, Arrived(env.seqId, dup));
    var b := if dup then a else a.(history := Remember(p, s.history, env.seqId));
    var c := if NeedsAck(k) then Acknowledge(b, env.cmd, env.seqId) else b;
    Acknowledged(b, env.cmd, env.seqId);
    var h := Log(c, Handled(env.cmd, env.seqId, !k.Unrouted?));
    SendsFollow(p, h, fx.sends);
    HandlerIsSends(p, c, k, env.(body := body), fx);
    RouteIsHandler(p, b, k, env.(body := body), dup, fx);
    DispatchIsRoute(p, r, env.(body := body), fx);
    assert Receive(p, s, Some(env), fx) == ApplyAll(p, h, fx.sends);
    assert h.wire == s.wire + Answer(k, env);
    assert Handlings(c.trace) == Handlings(a.trace) == Handlings(r.trace) == Handlings(s.trace);
    assert Prepared(s, env, h);
  }

  lemma HandlerIsSends(p: Platform, s: State, k: Kind, env: Envelope, fx: Effects)
    requires SendsItself(k) && Decodes(p, k, env.body, fx)
    ensures RunHandler(p, s, k, env, fx) == ApplyAll(p, Log(s, Handled(env.cmd, env.seqId, !k.Unrouted?)), fx.sends)
  {
    hide ApplyAll, EmitStatus;
  }

  lemma RouteIsHandler(p: Platform, s: State, k: Kind, env: Envelope, dup: bool, fx: Effects)
    requires k.Unrouted? || !dup
    ensures Route(p, s, k, env, dup, fx) ==
              RunHandler(p, if NeedsAck(k) then Acknowledge(s, env.cmd, env.seqId) else s, k, env, fx)
  {
    hide RunHandler, Retransmit;
  }

  lemma DispatchIsRoute(p: Platform, s: State, env: Envelope, fx: Effects)
    requires Permitted(s, env.cmd) && env.cmd != STATUS_OK && env.cmd != STATUS_MALFORMED && Lookup(TABLE, env.cmd).Some?
    ensures var dup := env.seqId in s.history;
            var a := Log(s, Arrived(env.seqId, dup));
            var b := if dup then a else a.(history := Remember(p, s.history, env.seqId));
            Dispatch(p, s, env, fx) == Route(p, b, Lookup(TABLE, env.cmd).value, env, dup, fx)
  {
    hide Route, Lookup, SendFrame, EmitStatus, ApplyAll;
  }
}
