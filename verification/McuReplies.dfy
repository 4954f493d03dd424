// What the firmware writes: repetitions on timeouts and duplicates, acknowledgements, error
// replies; and what its timers and flow-control commands do.
module McuReplies {
  import opened BigEndian
  import opened Wrappers
  import opened Protocol
  import opened Crypto
  import opened Frames
  import opened Mcu
  import opened McuRuns
  import opened McuRetry
  import opened McuEffects
  import Nonce
  import Fsm = McuFsm

  // ---- Repetition ----

  // The front of the queue goes out once more, if there is one.
  predicate Repeats(p: Platform, s: State, wire: seq<Envelope>)
  {
    if s.queue == [] then wire == s.wire
    else Writes(p, s, wire, s.queue[0].cmd, s.queue[0].seqId, s.queue[0].payload)
  }

  lemma RetransmitRepeats(p: Platform, s: State)
    requires p.crypto.Correct()
    ensures Repeats(p, s, Retransmit(p, s).wire)
    ensures var s' := Retransmit(p, s); s' == s.(wire := s'.wire, tx := s'.tx, trace := s'.trace)
  {
    hide Transmit, Writes;
    if s.queue != [] { TransmitWrites(p, s, s.queue[0].cmd, s.queue[0].seqId, s.queue[0].payload); }
  }

  // While retries are left, a timeout writes the front frame again and changes nothing else but
  // the counters.
  lemma TimeoutResends(p: Platform, s: State)
    requires p.crypto.Correct() && Fsm.IsAwaitingAck(s.fsm) && s.retryLimit < 256 && s.retryCount + 1 < RetriesAllowed(s)
    ensures var s' := AckTimeout(p, s);
            && Repeats(p, s, s'.wire) && s'.queue == s.queue && s'.fsm == s.fsm && s'.key == s.key
            && s'.retryCount == s.retryCount + 1
  {
    hide Retransmit, Writes;
    var s1 := s.(retryCount := (s.retryCount + 1) % 256);
    assert s1.retryCount == s.retryCount + 1;
    RetransmitRepeats(p, s1);
    RepeatsSame(p, s, s1);
  }

  lemma RepeatsSame(p: Platform, s: State, s1: State)
    requires s1 == s.(retryCount := s1.retryCount, wire := s1.wire, history := s1.history, trace := s1.trace, rx := s1.rx)
    requires s1.wire == s.wire
    ensures forall wire: seq<Envelope> :: Repeats(p, s, wire) == Repeats(p, s1, wire)
  {
  }

  // Sealing never fails.
  ghost predicate Seals(p: Platform)
  {
    forall k: Bytes, n: Bytes, c: int, q: int, t: Bytes :: p.crypto.seal(k, n, c, q, t).Some?
  }

  // How often a frame with this command and id has been written.
  function Copies(wire: seq<Envelope>, cmd: int, seqId: int): nat
  {
    if wire == [] then 0
    else Copies(wire[..|wire| - 1], cmd, seqId) + (if wire[|wire| - 1].cmd == cmd && wire[|wire| - 1].seqId == seqId then 1 else 0)
  }

  lemma {:induction false} CopiesGrow(a: seq<Envelope>, b: seq<Envelope>, cmd: int, seqId: int)
    requires Grows(a, b)
    ensures Copies(a, cmd, seqId) <= Copies(b, cmd, seqId)
    decreases |b|
  {
    if |a| < |b| {
      assert b[..|b| - 1][..|a|] == a;
      CopiesGrow(a, b[..|b| - 1], cmd, seqId);
    } else {
      assert b[..|a|] == b;
    }
  }

  lemma WrittenIsCopied(p: Platform, s: State, wire: seq<Envelope>, cmd: int, seqId: int, text: Bytes)
    requires Seals(p) && Writes(p, s, wire, cmd, seqId, text)
    ensures Copies(wire, cmd, seqId) == Copies(s.wire, cmd, seqId) + 1 && |wire| == |s.wire| + 1
  {
    assert wire[..|wire| - 1] == s.wire;
  }

  lemma TimeoutCopies(p: Platform, s: State)
    requires p.crypto.Correct() && Seals(p) && QueueOk(p, s) && Fsm.IsAwaitingAck(s.fsm) && s.retryCount + 1 < RetriesAllowed(s)
    ensures var f := s.queue[0]; var s' := AckTimeout(p, s);
            && Copies(s'.wire, f.cmd, f.seqId) == Copies(s.wire, f.cmd, f.seqId) + 1 && |s'.wire| == |s.wire| + 1
  {
    hide AckTimeout, Writes;
    TimeoutResends(p, s);
    var f := s.queue[0];
    WrittenIsCopied(p, s, AckTimeout(p, s).wire, f.cmd, f.seqId, f.payload);
  }

  // Over every run within the retry bound, whatever other traffic there is: each timeout has written
  // the awaited frame once more.
  lemma {:induction false} EveryTimeoutResends(p: Platform, s: State, inputs: seq<Input>)
    requires p.crypto.Correct() && Seals(p)
    requires Good(p, false, s) && Fsm.IsAwaitingAck(s.fsm) && s.retryCount == 0
    requires Breaks(Run(p, s, inputs).trace) == Breaks(s.trace) && Timeouts(inputs) < RetriesAllowed(s)
    ensures var f := s.queue[0];
            Copies(Run(p, s, inputs).wire, f.cmd, f.seqId) >= Copies(s.wire, f.cmd, f.seqId) + Timeouts(inputs)
    decreases |inputs|
  {
    if inputs != [] {
      hide Mcu.Step, Good, Breaks;
      var front, i := inputs[..|inputs| - 1], inputs[|inputs| - 1];
      var s1 := Run(p, s, front);
      GoodReliable(p, s);
      BreaksGrow(p, s, front);
      BreaksStep(p, s, front, i);
      RetryBound(p, s, front);
      EveryTimeoutResends(p, s, front);
      GoodQueue(p, s1);
      if i.AckTimer? {
        TimeoutCopies(p, s1);
        StepTimer(p, s1);
      } else {
        StepGrows(p, s1, i);
        CopiesGrow(s1.wire, Step(p, s1, i).wire, s.queue[0].cmd, s.queue[0].seqId);
      }
    }
  }

  lemma GoodQueue(p: Platform, s: State)
    requires Good(p, false, s)
    ensures QueueOk(p, s)
  {
  }

  lemma GoodReliable(p: Platform, s: State)
    requires Good(p, false, s)
    ensures Reliable(s)
  {
  }

  lemma StepTimer(p: Platform, s: State)
    ensures Mcu.Step(p, s, AckTimer) == AckTimeout(p, s)
  {
  }

  // Left alone, the firmware writes the awaited frame once per timeout and nothing else.
  lemma {:induction false} OnlyTimeouts(p: Platform, s: State, inputs: seq<Input>)
    requires p.crypto.Correct() && Seals(p)
    requires Good(p, false, s) && Fsm.IsAwaitingAck(s.fsm) && s.retryCount == 0
    requires (forall i :: i in inputs ==> i.AckTimer?) && |inputs| < RetriesAllowed(s)
    ensures var f := s.queue[0]; var s' := Run(p, s, inputs);
            && Good(p, false, s') && Fsm.IsAwaitingAck(s'.fsm) && s'.retryCount == |inputs| && s'.retryLimit == s.retryLimit
            && s'.queue == s.queue
            && Copies(s'.wire, f.cmd, f.seqId) == Copies(s.wire, f.cmd, f.seqId) + |inputs| && |s'.wire| == |s.wire| + |inputs|
    decreases |inputs|
  {
    if inputs != [] {
      hide Mcu.Step, Good, AckTimeout;
      var front := inputs[..|inputs| - 1];
      assert inputs[|inputs| - 1] in inputs;
      OnlyTimeouts(p, s, front);
      var s1 := Run(p, s, front);
      GoodQueue(p, s1);
      TimeoutCopies(p, s1);
      TimeoutResends(p, s1);
      TimeoutLimit(p, s1);
      StepTimer(p, s1);
      StepGood(p, false, s1, AckTimer);
    }
  }

  lemma TimeoutLimit(p: Platform, s: State)
    ensures AckTimeout(p, s).retryLimit == s.retryLimit
  {
  }

  // With the frame's first transmission: queued on an idle link, it has been written once more than
  // there were timeouts.
  lemma QueuedIsWritten(p: Platform, s: State, f: Pending, inputs: seq<Input>)
    requires p.crypto.Correct() && Seals(p) && Good(p, false, s) && s.fsm == Fsm.Synchronized && s.queue == [] && s.txEnabled
    requires p.capacity > 0 && |f.payload| <= MAX_PAYLOAD && RequiresAck(f.cmd)
    requires var s1 := Enqueue(p, s, f); Breaks(Run(p, s1, inputs).trace) == Breaks(s1.trace) && Timeouts(inputs) < RetriesAllowed(s1)
    ensures Copies(Run(p, Enqueue(p, s, f), inputs).wire, f.cmd, f.seqId) >= Copies(s.wire, f.cmd, f.seqId) + 1 + Timeouts(inputs)
  {
    hide Good, Breaks, Flush, Writes, Run;
    EnqueueGood(p, false, s, f);
    var q := s.(queue := [f]);
    assert s.queue + [f] == [f];
    FlushWrites(p, q);
    WrittenIsCopied(p, q, Flush(p, q).wire, f.cmd, f.seqId, f.payload);
    EveryTimeoutResends(p, Enqueue(p, s, f), inputs);
  }

  // ---- Acknowledgements and duplicates ----

  // A listed command that is permitted is acknowledged first wherever it should be, fresh or not,
  // readable or not.
  lemma AlwaysAcknowledged(p: Platform, s: State, env: Envelope, fx: Effects)
    requires Considered(p, s, env) && Lookup(TABLE, env.cmd).Some? && !Lookup(TABLE, env.cmd).value.Unrouted?
    ensures Grows(s.wire + Answer(Lookup(TABLE, env.cmd).value, env), Receive(p, s, Some(env), fx).wire)
  {
    hide Lookup, Grows, Route, Dispatch;
    var k := Lookup(TABLE, env.cmd).value;
    var r := Opening(p, s, env);
    var b := Noting(p, r, env);
    DispatchIsRoute(p, r, env.(body := Reached(p, s, env).value), fx);
    RouteAnswers(p, b, k, env.(body := Reached(p, s, env).value), env.seqId in s.history, fx);
  }

  // The state after the security check, and after the id is noted.
  function Opening(p: Platform, s: State, env: Envelope): State
  {
    if s.Secured() && !IsSystem(env.cmd) then
      var rx := Nonce.ValidateFrame(NonceField(env), s.rx).1; Log(s.(rx := rx), Opened(rx))
    else s
  }

  function Noting(p: Platform, s: State, env: Envelope): State
  {
    var dup := env.seqId in s.history;
    var a := Log(s, Arrived(env.seqId, dup));
    if dup then a else a.(history := Remember(p, s.history, env.seqId))
  }

  lemma RouteAnswers(p: Platform, s: State, k: Kind, env: Envelope, dup: bool, fx: Effects)
    requires !k.Unrouted?
    ensures Grows(s.wire + Answer(k, env), Route(p, s, k, env, dup, fx).wire)
  {
    hide RunHandler, Retransmit, Grows;
    var s1 := if NeedsAck(k) then Acknowledge(s, env.cmd, env.seqId) else s;
    Acknowledged(s, env.cmd, env.seqId);
    assert s1.wire == s.wire + Answer(k, env);
    Acknowledged(s1, env.cmd, env.seqId);
    HandlerLogs(p, s1, k, env, fx);
    RetransmitStill(p, s1);
    StillGrows(s1, Retransmit(p, s1));
  }

  lemma StillGrows(s: State, s': State)
    requires Still(s, s')
    ensures Grows(s.wire, s'.wire)
  {
  }

  // A duplicate runs no handler: a query or read is answered by repeating the frame at the front of
  // the queue, anything else by its acknowledgement alone.
  lemma DuplicateRepeats(p: Platform, s: State, env: Envelope, fx: Effects)
    requires p.crypto.Correct() && Considered(p, s, env) && env.seqId in s.history
    requires Lookup(TABLE, env.cmd).Some? && !Lookup(TABLE, env.cmd).value.Unrouted?
    ensures var k := Lookup(TABLE, env.cmd).value; var s' := Receive(p, s, Some(env), fx);
            && s'.queue == s.queue && s'.fsm == s.fsm
            && if k.Query? || k.Read? then Repeats(p, s, s'.wire)
               else s'.wire == s.wire + [Envelope(STATUS_ACK, env.seqId, [], Ack(env.cmd))]
  {
    hide Lookup, Route, Dispatch, Retransmit, Repeats;
    var k := Lookup(TABLE, env.cmd).value;
    var r := Opening(p, s, env);
    var b := Noting(p, r, env);
    DispatchIsRoute(p, r, env.(body := Reached(p, s, env).value), fx);
    RouteDuplicate(p, b, k, env.(body := Reached(p, s, env).value), fx);
    RepeatsSame(p, s, b);
  }

  lemma RouteDuplicate(p: Platform, s: State, k: Kind, env: Envelope, fx: Effects)
    requires p.crypto.Correct() && !k.Unrouted?
    ensures var s' := Route(p, s, k, env, true, fx);
            && s'.queue == s.queue && s'.fsm == s.fsm
            && if k.Query? || k.Read? then Repeats(p, s, s'.wire)
               else s'.wire == s.wire + [Envelope(STATUS_ACK, env.seqId, [], Ack(env.cmd))]
  {
    hide RunHandler, Retransmit, Repeats;
    Acknowledged(s, env.cmd, env.seqId);
    RetransmitRepeats(p, s);
  }

  // A fresh acknowledgement ends the wait exactly if it names the awaited command: the queue is
  // emptied and the link is free to send; any other leaves the wait as it was.
  lemma AckEndsWaitIff(p: Platform, s: State, env: Envelope, cmd: int, fx: Effects)
    requires env.cmd == STATUS_ACK && env.body == Ack(cmd) && env.seqId !in s.history && Fsm.IsAwaitingAck(s.fsm)
    ensures var s' := Receive(p, s, Some(env), fx);
            if cmd == s.lastCmd then s'.fsm == Fsm.Synchronized && s'.queue == []
            else s'.queue == s.queue && s'.fsm == s.fsm && s'.retryCount == s.retryCount
  {
    hide Lookup, Route, EmitStatus, SendFrame, ApplyAll;
    AckIsListed();
    DispatchIsRoute(p, s, env, fx);
    var b := Noting(p, s, env);
    RouteIsHandler(p, b, StatusAck, env, false, fx);
    Acknowledged(b, env.cmd, env.seqId);
  }

  lemma AckIsListed()
    ensures Lookup(TABLE, STATUS_ACK) == Some(StatusAck)
  {
  }

  // ---- Error replies ----

  // A status frame of the firmware's own.
  function StatusFrame(code: int, seqId: int): Envelope { Envelope(code, seqId, seq(NONCE_SIZE, _ => 0), Blob([])) }

  lemma StatusWrites(p: Platform, s: State, code: int)
    requires 48 <= code <= 63
    ensures EmitStatus(p, s, code) == s.(wire := s.wire + [StatusFrame(code, 0)])
  {
    assert Take([], MAX_PAYLOAD) == [];
  }

  // Each refusal is answered with one status frame and changes nothing else: a frame that does not
  // parse, one that does not authenticate or is not newer, and one that is not permitted, whose id
  // is noted all the same.
  lemma RefusalsAnswered(p: Platform, s: State, env: Envelope, fx: Effects)
    ensures Receive(p, s, None, fx) == s.(wire := s.wire + [StatusFrame(STATUS_MALFORMED, 0)])
    ensures Reached(p, s, env).None? ==> Receive(p, s, Some(env), fx) == s.(wire := s.wire + [StatusFrame(STATUS_ERROR, 0)])
    ensures Reached(p, s, env).Some? && !Permitted(s, env.cmd) ==>
              Receive(p, s, Some(env), fx) == Noting(p, s, env).(wire := s.wire + [StatusFrame(STATUS_ERROR, env.seqId)])
  {
    hide EmitStatus, Lookup, Route, ApplyAll, EnterSafeState;
    StatusWrites(p, s, STATUS_MALFORMED);
    StatusWrites(p, s, STATUS_ERROR);
    assert Take([], MAX_PAYLOAD) == [];
  }

  // A payload that does not decode is answered as malformed, behind the acknowledgement.
  lemma UndecodableAnswered(p: Platform, s: State, k: Kind, env: Envelope, fx: Effects)
    requires !Decodes(p, k, env.body, fx)
    ensures RunHandler(p, s, k, env, fx) == s.(wire := s.wire + [StatusFrame(STATUS_MALFORMED, 0)])
  {
    hide EmitStatus, ApplyAll, HandleAck, HandleLinkSync, HandleLinkReset;
    StatusWrites(p, s, STATUS_MALFORMED);
  }

  // An OK status is acknowledged; a malformed status sends the firmware to its safe state.
  lemma StatusesDo(p: Platform, s: State, env: Envelope, fx: Effects)
    requires env.cmd == STATUS_OK || env.cmd == STATUS_MALFORMED
    ensures var s' := Receive(p, s, Some(env), fx);
            if env.cmd == STATUS_OK then
              s' == Noting(p, s, env).(wire := s.wire + [Envelope(STATUS_ACK, env.seqId, [], Ack(env.cmd))])
            else s'.fsm == Fsm.Unsynchronized && s'.queue == [] && !s'.txEnabled && s'.wire == s.wire
  {
    hide Lookup, Route, EmitStatus, SendFrame, ApplyAll;
  }

  // A command that is not listed goes to the sketch's handler, whose sends follow, or is answered
  // with an error.
  lemma UnknownCommand(p: Platform, s: State, env: Envelope, fx: Effects)
    requires p.crypto.Correct() && Considered(p, s, env) && Lookup(TABLE, env.cmd).None?
    ensures var b := Noting(p, Opening(p, s, env), env); var s' := Receive(p, s, Some(env), fx);
            if fx.userHandler then Follows(p, Log(b, Handled(env.cmd, env.seqId, false)), fx.sends, s')
            else s' == b.(wire := s.wire + [StatusFrame(STATUS_ERROR, 0)])
  {
    hide Lookup, Route, EmitStatus, SendFrame, ApplyAll, Follows;
    var b := Noting(p, Opening(p, s, env), env);
    StatusWrites(p, b, STATUS_ERROR);
    SendsFollow(p, Log(b, Handled(env.cmd, env.seqId, false)), fx.sends);
  }

  // ---- Timers and flow control ----

  // After the deduplication timer every id is fresh; the watchdog brings a link that is not
  // synchronised to Fault and stops it sending, and leaves a synchronised one alone.
  lemma TimersDo(p: Platform, s: State)
    ensures Step(p, s, DedupeTimer).history == []
    ensures var s' := Step(p, s, HandshakeTimer);
            if Fsm.IsSynchronized(s.fsm) then s' == s else s'.fsm == Fsm.Fault && !s'.txEnabled && s'.queue == s.queue
  {
  }

  // The safe state drops what is queued, stops sending and waits for a handshake; a restart takes
  // the new secret, waits for a handshake and sends again.
  lemma RestartsDo(p: Platform, s: State, secret: Bytes, ok: bool)
    ensures var s' := Step(p, s, Unsafe);
            && s'.fsm == Fsm.Unsynchronized && s'.queue == [] && !s'.txEnabled
            && s'.trace == Then(Then(s.trace, SafePins), Moved(Fsm.Reset, s.fsm, Fsm.Unsynchronized))
    ensures var s' := Step(p, s, Restart(secret, ok));
            && s'.fsm == Fsm.Unsynchronized && s'.txEnabled && s'.queue == (if ok then s.queue else [])
            && s'.secret == if |secret| <= 64 then secret else secret[..64]
  {
  }

  // A fresh XOFF stops sending and a fresh XON resumes it, in any state.
  lemma FlowControl(p: Platform, s: State, env: Envelope, fx: Effects)
    requires (env.cmd == 78 || env.cmd == 79) && env.seqId !in s.history
    ensures Receive(p, s, Some(env), fx).txEnabled == (env.cmd == 79)
  {
    hide Lookup, Route, EmitStatus, SendFrame, ApplyAll;
    FlowIsListed();
    DispatchIsRoute(p, s, env, fx);
    RouteIsHandler(p, Noting(p, s, env), if env.cmd == 78 then Xoff else Xon, env, false, fx);
  }

  lemma FlowIsListed()
    ensures Lookup(TABLE, 78) == Some(Xoff) && Lookup(TABLE, 79) == Some(Xon)
  {
    hide Lookup;
    LookupFirst(TABLE, 78, 8);
    LookupFirst(TABLE, 79, 9);
  }

  lemma LookupFirst(t: seq<(int, Kind)>, cmd: int, n: nat)
    requires n < |t| && t[n].0 == cmd && forall i :: 0 <= i < n ==> t[i].0 != cmd
    ensures Lookup(t, cmd) == Some(t[n].1)
  {
    Skip(t, cmd, n);
  }

  lemma {:induction false} Skip(t: seq<(int, Kind)>, cmd: int, n: nat)
    requires n <= |t| && forall i :: 0 <= i < n ==> t[i].0 != cmd
    ensures Lookup(t, cmd) == Lookup(t[n..], cmd)
    decreases n
  {
    if n > 0 {
      Skip(t[1..], cmd, n - 1);
      assert t[1..][n - 1..] == t[n..];
    } else {
      assert t[0..] == t;
    }
  }
}
