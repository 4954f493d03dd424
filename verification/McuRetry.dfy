// What the firmware's steps leave alone, and the bound on retransmission.
module McuRetry {
  import opened BigEndian
  import opened Wrappers
  import opened Protocol
  import opened Crypto
  import opened Frames
  import opened Mcu
  import opened McuRuns
  import Nonce
  import Fsm = McuFsm

  // Acknowledgements, resets and handshake failures seen by the state machine.
  function Breaks(t: Trace): nat
  {
    match t
    case Start => 0
    case Then(b, Moved(e, _, _)) =>
      Breaks(b) + (if e.AckReceived? || e.Reset? || e.HandshakeFailed? then 1 else 0)
    case Then(b, _) => Breaks(b)
  }

  // Still waiting for the same frame to be acknowledged, with the same retries behind it.
  predicate Waiting(s: State, s': State)
  {
    && Fsm.IsAwaitingAck(s'.fsm) && s'.queue != [] && s.queue != [] && s'.queue[0] == s.queue[0]
    && s'.retryCount == s.retryCount && s'.retryLimit == s.retryLimit && s'.lastCmd == s.lastCmd
  }

  // A wait ends only by an acknowledgement, a reset or a handshake failure.
  predicate Settles(s: State, s': State)
  {
    && Breaks(s'.trace) >= Breaks(s.trace)
    && (Fsm.IsAwaitingAck(s.fsm) && s.queue != [] && Breaks(s'.trace) == Breaks(s.trace) ==> Waiting(s, s'))
  }

  // The session is untouched and no sync response is written.
  predicate Quiet(s: State, s': State)
  {
    && s'.key == s.key && s'.secret == s.secret && s'.rx == s.rx
    && (forall e :: e in s'.wire ==> e in s.wire || e.cmd != CMD_LINK_SYNC_RESP)
  }

  // quiet: nothing asked for here writes a sync response.
  predicate Calm(quiet: bool, s: State, s': State) { Settles(s, s') && Reliable(s') && (quiet ==> Quiet(s, s')) }

  predicate Reliable(s: State) { forall f :: f in s.queue ==> RequiresAck(f.cmd) }

  lemma TransmitCalm(p: Platform, s: State, cmd: int, seqId: int, payload: Bytes)
    requires Reliable(s)
    ensures Calm(cmd != CMD_LINK_SYNC_RESP, s, Transmit(p, s, cmd, seqId, payload))
  {
  }

  lemma MoveCalm(s: State, e: Fsm.Event)
    requires Reliable(s) && !(e.Timeout? && Fsm.IsAwaitingAck(s.fsm))
    ensures Calm(true, s, Move(s, e))
  {
  }

  lemma FlushCalm(p: Platform, s: State)
    requires Reliable(s) && !Fsm.IsAwaitingAck(s.fsm)
    ensures Calm(true, s, Flush(p, s))
  {
    if s.queue != [] && s.txEnabled {
      var f := s.queue[0];
      var s1 := s.(lastCmd := f.cmd, retryCount := 0);
      MoveCalm(s1, Fsm.SendCritical);
      TransmitCalm(p, Move(s1, Fsm.SendCritical), f.cmd, f.seqId, f.payload);
    }
  }

  lemma RetransmitCalm(p: Platform, s: State)
    requires Reliable(s)
    ensures Calm(true, s, Retransmit(p, s))
  {
    if s.queue != [] {
      assert RequiresAck(s.queue[0].cmd);
      TransmitCalm(p, s, s.queue[0].cmd, s.queue[0].seqId, s.queue[0].payload);
    }
  }

  lemma EnqueueCalm(p: Platform, s: State, f: Pending)
    requires Reliable(s) && RequiresAck(f.cmd)
    ensures Calm(true, s, Enqueue(p, s, f))
  {
    var s1 := s.(queue := s.queue + [f]);
    if !Fsm.IsAwaitingAck(s.fsm) {
      FlushCalm(p, s1);
    }
  }

  predicate OpOk(op: SendOp) { op.cmd != CMD_LINK_SYNC_RESP }
  predicate OpsOk(ops: seq<SendOp>) { forall op :: op in ops ==> OpOk(op) }

  lemma SendFrameCalm(p: Platform, s: State, cmd: int, seqId: int, payload: Bytes)
    requires Reliable(s)
    ensures Calm(cmd != CMD_LINK_SYNC_RESP, s, SendFrame(p, s, cmd, seqId, payload).0)
  {
    if RequiresAck(cmd) {
      EnqueueCalm(p, s, Pending(cmd, seqId, Take(payload, MAX_PAYLOAD)));
    }
    TransmitCalm(p, s, cmd, seqId, Take(payload, MAX_PAYLOAD));
  }

  lemma ApplyCalm(p: Platform, s: State, op: SendOp)
    requires Reliable(s)
    ensures Calm(OpOk(op), s, Apply(p, s, op))
  {
    hide SendFrame, Enqueue, Transmit, RequiresAck;
    match op
    case Frame(cmd, seqId, payload) => SendFrameCalm(p, s, cmd, seqId, payload);
    case Packet(cmd, seqId, body, encoded) =>
      if encoded.Some? {
        if RequiresAck(cmd) {
          EnqueueCalm(p, s, Pending(cmd, seqId, Take(encoded.value, MAX_PAYLOAD)));
        }
        TransmitCalm(p, s, cmd, seqId, Take(encoded.value, MAX_PAYLOAD));
      }
  }

  lemma {:induction false} ApplyAllCalm(p: Platform, s: State, ops: seq<SendOp>)
    requires Reliable(s)
    ensures Calm(OpsOk(ops), s, ApplyAll(p, s, ops))
    decreases |ops|
  {
    if ops != [] {
      ApplyCalm(p, s, ops[0]);
      ApplyAllCalm(p, Apply(p, s, ops[0]), ops[1..]);
    }
  }

  lemma SafeStateCalm(s: State)
    requires Reliable(s)
    ensures Calm(true, s, EnterSafeState(s))
  {
  }

  lemma EmitStatusCalm(p: Platform, s: State, code: int)
    requires Reliable(s)
    ensures Calm(code != CMD_LINK_SYNC_RESP, s, EmitStatus(p, s, code))
  {
    SendFrameCalm(p, s, code, 0, []);
    SafeStateCalm(SendFrame(p, s, code, 0, []).0);
  }

  lemma HandleAckCalm(p: Platform, s: State, cmd: int)
    requires Reliable(s)
    ensures Calm(true, s, HandleAck(p, s, cmd))
  {
    if Fsm.IsAwaitingAck(s.fsm) && cmd == s.lastCmd {
      FlushCalm(p, Move(s.(queue := []), Fsm.AckReceived));
    }
  }

  lemma LinkResetCalm(p: Platform, s: State, env: Envelope)
    requires Reliable(s)
    ensures Calm(true, s, HandleLinkReset(p, s, env))
  {
    var limit := ConfigOf(p, env.body);
    var s1 := if limit.Some? then s.(retryLimit := limit.value % 256) else s;
    SendFrameCalm(p, Move(s1, Fsm.Reset), CMD_LINK_RESET_RESP, env.seqId, []);
  }

  // A LINK_SYNC settles too: accepted, it leaves a wait alone; refused, it breaks it.
  lemma LinkSyncSettles(p: Platform, s: State, seqId: int, nonce: Bytes, tag: Bytes)
    requires Reliable(s)
    ensures Settles(s, HandleLinkSync(p, s, seqId, nonce, tag))
    ensures Reliable(HandleLinkSync(p, s, seqId, nonce, tag))
  {
    hide EmitStatus;
    var n := Take(nonce, HANDSHAKE_NONCE_LENGTH);
    if s.secret != [] && !TagAccepted(p, s, n, tag) {
      MoveCalm(s, Fsm.HandshakeFailed);
      EmitStatusCalm(p, Move(s, Fsm.HandshakeFailed), STATUS_ERROR);
    } else {
      var s1 := if s.secret == [] then s
                else Log(s.(key := p.crypto.sessionKey(s.secret, n), tx := 0, rx := 0), SyncAccepted(n));
      MoveCalm(s1, Fsm.HandshakeStart);
      MoveCalm(Move(s1, Fsm.HandshakeStart), Fsm.HandshakeComplete);
    }
  }

  lemma HandlerSettles(p: Platform, s: State, k: Kind, env: Envelope, fx: Effects)
    requires Reliable(s)
    ensures Calm(!k.LinkSync? && OpsOk(fx.sends), s, RunHandler(p, s, k, env, fx))
  {
    hide HandleAck, HandleLinkSync, HandleLinkReset, ApplyAll, EmitStatus;
    var h := Log(s, Handled(env.cmd, env.seqId, !k.Unrouted?));
    EmitStatusCalm(p, s, STATUS_MALFORMED);
    ApplyAllCalm(p, h, fx.sends);
    LinkResetCalm(p, h, env);
    forall c: int { HandleAckCalm(p, h, c); }
    forall n: Bytes, t: Bytes { LinkSyncSettles(p, h, env.seqId, n, t); }
  }

  lemma RouteSettles(p: Platform, s: State, k: Kind, env: Envelope, dup: bool, fx: Effects)
    requires Reliable(s)
    ensures Calm(!k.LinkSync? && OpsOk(fx.sends), s, Route(p, s, k, env, dup, fx))
  {
    hide RunHandler, Retransmit;
    var s1 := if NeedsAck(k) then Acknowledge(s, env.cmd, env.seqId) else s;
    assert Calm(true, s, s1);
    RetransmitCalm(p, s1);
    HandlerSettles(p, s, k, env, fx);
    HandlerSettles(p, s1, k, env, fx);
  }

  lemma DispatchSettles(p: Platform, s: State, env: Envelope, fx: Effects)
    requires Reliable(s)
    ensures Calm(env.cmd != CMD_LINK_SYNC && OpsOk(fx.sends), s, Dispatch(p, s, env, fx))
  {
    hide Route, SendFrame, EmitStatus, EnterSafeState, ApplyAll, Lookup;
    var dup := env.seqId in s.history;
    var s0 := Log(s, Arrived(env.seqId, dup));
    var s1 := if dup then s0 else s0.(history := Remember(p, s.history, env.seqId));
    assert Calm(true, s, s1);
    SendFrameCalm(p, s1, STATUS_ERROR, env.seqId, []);
    SafeStateCalm(s1);
    EmitStatusCalm(p, s1, STATUS_ERROR);
    ApplyAllCalm(p, Log(s1, Handled(env.cmd, env.seqId, false)), fx.sends);
    if Lookup(TABLE, env.cmd).Some? {
      OnlySyncIsSync(env.cmd);
      RouteSettles(p, s1, Lookup(TABLE, env.cmd).value, env, dup, fx);
    }
  }

  lemma OnlySyncIsSync(cmd: int)
    ensures Lookup(TABLE, cmd) == Some(LinkSync) ==> cmd == CMD_LINK_SYNC
  {
    hide Lookup;
    LookupHits(TABLE, cmd);
  }

  lemma {:induction false} LookupHits(table: seq<(int, Kind)>, cmd: int)
    ensures Lookup(table, cmd).Some? ==> (cmd, Lookup(table, cmd).value) in table
  {
    if table != [] && table[0].0 != cmd {
      LookupHits(table[1..], cmd);
    }
  }

  lemma ReceiveSettles(p: Platform, s: State, frame: Option<Envelope>, fx: Effects)
    requires Reliable(s)
    ensures Settles(s, Receive(p, s, frame, fx)) && Reliable(Receive(p, s, frame, fx))
  {
    hide Dispatch, EmitStatus;
    EmitStatusCalm(p, s, STATUS_MALFORMED);
    EmitStatusCalm(p, s, STATUS_ERROR);
    if frame.Some? {
      var env := frame.value;
      DispatchSettles(p, s, env, fx);
      if s.Secured() && !IsSystem(env.cmd) && |Cipher(env)| >= TAG_LENGTH {
        var text := p.crypto.open(s.key, NonceField(env), env.cmd, env.seqId, Cipher(env));
        var (newer, counter) := Nonce.ValidateFrame(NonceField(env), s.rx);
        if text.Some? && newer {
          DispatchSettles(p, Log(s.(rx := counter), Opened(counter)), env.(body := Blob(text.value)), fx);
        }
      }
    }
  }

  // The ciphertext is long enough and opens under the session key.
  predicate Authentic(p: Platform, s: State, env: Envelope)
  {
    && |Cipher(env)| >= TAG_LENGTH
    && p.crypto.open(s.key, NonceField(env), env.cmd, env.seqId, Cipher(env)).Some?
  }

  // A frame moves the receive counter exactly if it authenticates and is newer, and then to
  // its own counter; any other leaves the session as it was.
  lemma CounterMovesIff(p: Platform, s: State, env: Envelope, fx: Effects)
    requires Reliable(s) && s.Secured() && !IsSystem(env.cmd) && OpsOk(fx.sends)
    ensures var s' := Receive(p, s, Some(env), fx);
            var (newer, counter) := Nonce.ValidateFrame(NonceField(env), s.rx);
            if Authentic(p, s, env) && newer then s'.rx == counter > s.rx && s'.key == s.key else Quiet(s, s')
  {
    hide Dispatch, EmitStatus;
    EmitStatusCalm(p, s, STATUS_ERROR);
    var (newer, counter) := Nonce.ValidateFrame(NonceField(env), s.rx);
    if Authentic(p, s, env) && newer {
      var text := p.crypto.open(s.key, NonceField(env), env.cmd, env.seqId, Cipher(env)).value;
      DispatchSettles(p, Log(s.(rx := counter), Opened(counter)), env.(body := Blob(text)), fx);
    }
  }

  lemma StepSettles(p: Platform, s: State, i: Input)
    requires Reliable(s) && !i.AckTimer?
    ensures Settles(s, Step(p, s, i)) && Reliable(Step(p, s, i))
  {
    hide Receive, Apply, EnterSafeState;
    match i
    case Incoming(frame, fx) => ReceiveSettles(p, s, frame, fx);
    case App(op) => ApplyCalm(p, s, op);
    case HandshakeTimer =>
      if !Fsm.IsSynchronized(s.fsm) {
        MoveCalm(s, Fsm.Timeout);
      }
    case DedupeTimer =>
    case Unsafe => SafeStateCalm(s);
    case Restart(secret, ok) =>
      var s1 := Move(s.(secret := Take(secret, 64)), Fsm.Reset);
      SafeStateCalm(s1);
  }

  function Timeouts(inputs: seq<Input>): nat
    decreases |inputs|
  {
    if inputs == [] then 0
    else Timeouts(inputs[..|inputs| - 1]) + (if inputs[|inputs| - 1].AckTimer? then 1 else 0)
  }

  // From the first transmission of a frame, with no acknowledgement, reset or handshake
  // failure on the way, the firmware goes on waiting, its 8-bit count equal to the number of
  // timeouts, until timeout number max(1, retry limit); that one drives it to Fault, with
  // transmission disabled and the queue empty. Other traffic does not matter.
  lemma {:induction false} RetryBound(p: Platform, s: State, inputs: seq<Input>)
    requires Good(p, false, s) && Fsm.IsAwaitingAck(s.fsm) && s.retryCount == 0
    requires Breaks(Run(p, s, inputs).trace) == Breaks(s.trace)
    ensures var s' := Run(p, s, inputs);
            && Good(p, false, s')
            && (Timeouts(inputs) < RetriesAllowed(s) ==>
                  && Fsm.IsAwaitingAck(s'.fsm) && s'.queue[0] == s.queue[0]
                  && s'.retryCount == Timeouts(inputs) && s'.retryLimit == s.retryLimit && s'.lastCmd == s.lastCmd)
            && (Timeouts(inputs) == RetriesAllowed(s) && inputs[|inputs| - 1].AckTimer? ==>
                  s'.fsm == Fsm.Fault && s'.queue == [] && !s'.txEnabled)
  {
    if inputs != [] {
      var front, i := inputs[..|inputs| - 1], inputs[|inputs| - 1];
      var s1 := Run(p, s, front);
      BreaksGrow(p, s, front);
      BreaksStep(p, s, front, i);
      RetryBound(p, s, front);
      StepGood(p, false, s1, i);
      if Timeouts(front) < RetriesAllowed(s) {
        if i.AckTimer? {
          TimeoutStep(p, s1);
        } else {
          StepSettles(p, s1, i);
        }
      }
    }
  }

  lemma TimeoutStep(p: Platform, s: State)
    requires QueueOk(p, s) && Fsm.IsAwaitingAck(s.fsm)
    ensures var s' := AckTimeout(p, s);
            && Breaks(s'.trace) == Breaks(s.trace)
            && if s.retryCount + 1 < RetriesAllowed(s)
               then Waiting(s.(retryCount := s.retryCount + 1), s')
               else s'.fsm == Fsm.Fault && s'.queue == [] && !s'.txEnabled
  {
    hide Retransmit;
    var s1 := s.(retryCount := (s.retryCount + 1) % 256);
    assert s1.retryCount == s.retryCount + 1;
    if s1.retryCount < s1.retryLimit {
      RetransmitSame(p, s1);
    }
  }

  lemma RetransmitSame(p: Platform, s: State)
    requires QueueOk(p, s) && Fsm.IsAwaitingAck(s.fsm)
    ensures Breaks(Retransmit(p, s).trace) == Breaks(s.trace) && Waiting(s, Retransmit(p, s))
  {
  }

  lemma BreaksStep(p: Platform, s: State, front: seq<Input>, i: Input)
    requires Reliable(Run(p, s, front))
    ensures Breaks(Step(p, Run(p, s, front), i).trace) >= Breaks(Run(p, s, front).trace)
  {
    var s1 := Run(p, s, front);
    if i.AckTimer? {
      TimeoutBreaks(p, s1);
    } else {
      StepSettles(p, s1, i);
    }
  }

  lemma TimeoutBreaks(p: Platform, s: State)
    requires Reliable(s)
    ensures Breaks(AckTimeout(p, s).trace) == Breaks(s.trace) && Reliable(AckTimeout(p, s))
  {
  }

  lemma {:induction false} BreaksGrow(p: Platform, s: State, inputs: seq<Input>)
    requires Reliable(s)
    ensures Reliable(Run(p, s, inputs)) && Breaks(Run(p, s, inputs).trace) >= Breaks(s.trace)
  {
    if inputs != [] {
      var front, i := inputs[..|inputs| - 1], inputs[|inputs| - 1];
      BreaksGrow(p, s, front);
      BreaksStep(p, s, front, i);
      if i.AckTimer? {
        TimeoutBreaks(p, Run(p, s, front));
      } else {
        StepSettles(p, Run(p, s, front), i);
      }
    }
  }
}
