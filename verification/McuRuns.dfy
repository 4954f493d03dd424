// Properties of every run of the firmware, stated on its trace.
module McuRuns {
  import opened BigEndian
  import opened Wrappers
  import opened Protocol
  import opened Crypto
  import opened Frames
  import opened Mcu
  import Nonce
  import Fsm = McuFsm

  // ---- What a trace says ----

  function LastState(t: Trace): Fsm.State
  {
    match t
    case Start => Fsm.Startup
    case Then(_, Moved(_, _, target)) => target
    case Then(b, _) => LastState(b)
  }

  predicate Drops(e: Fsm.Event) { e.Reset? || e.HandshakeFailed? || e.Timeout? }

  // A LINK_SYNC was accepted and no reset, handshake failure or timeout followed it.
  predicate SyncLive(t: Trace)
  {
    match t
    case Start => false
    case Then(_, SyncAccepted(_)) => true
    case Then(b, Moved(e, _, _)) => !Drops(e) && SyncLive(b)
    case Then(b, _) => SyncLive(b)
  }

  // The frames encrypted since the last accepted LINK_SYNC.
  function SealedSince(t: Trace): nat
  {
    match t
    case Start => 0
    case Then(_, SyncAccepted(_)) => 0
    case Then(b, Sealed(_)) => SealedSince(b) + 1
    case Then(b, _) => SealedSince(b)
  }

  // The last counter accepted since the last accepted LINK_SYNC.
  function HighWater(t: Trace): nat
  {
    match t
    case Start => 0
    case Then(_, SyncAccepted(_)) => 0
    case Then(_, Opened(c)) => c
    case Then(b, _) => HighWater(b)
  }

  // The sequence ids that were fresh on arrival, since the history was last cleared.
  function FreshIds(t: Trace): seq<int>
  {
    match t
    case Start => []
    case Then(_, HistoryCleared) => []
    case Then(b, Arrived(id, dup)) => if dup then FreshIds(b) else FreshIds(b) + [id]
    case Then(b, _) => FreshIds(b)
  }

  function Suffix(s: seq<int>, n: nat): seq<int>
  {
    if |s| <= n then s else s[|s| - n..]
  }

  function LastArrival(t: Trace): Option<(int, bool)>
  {
    match t
    case Start => None
    case Then(_, Arrived(id, dup)) => Some((id, dup))
    case Then(b, _) => LastArrival(b)
  }

  predicate JustFaulted(t: Trace)
  {
    match t
    case Then(_, Moved(_, source, target)) => target == Fsm.Fault && source != Fsm.Fault
    case _ => false
  }

  // The frame with this id has just arrived, right after being authenticated.
  predicate JustOpened(t: Trace, id: int)
  {
    t.Then? && t.entry.Arrived? && t.entry.seqId == id && t.before.Then? && t.before.entry.Opened?
  }

  // The laws each entry obeys, given the trace before it. guarded: a secret is set.
  predicate EntryOk(n: nat, guarded: bool, b: Trace, e: Entry)
  {
    && (JustFaulted(b) ==> e == SafePins)
    && match e
       case Moved(event, source, target) => source == LastState(b) && target == Fsm.OnEvent(source, event)
       case Sealed(c) => c == (SealedSince(b) + 1) % U64
       case Opened(c) => c > HighWater(b)
       case Arrived(id, dup) => dup <==> id in Suffix(FreshIds(b), n)
       case Handled(cmd, id, routed) =>
         && (guarded && !IsSystem(cmd) ==> SyncLive(b) && JustOpened(b, id))
         && (routed ==> LastArrival(b) == Some((id, false)))
       case _ => true
  }

  predicate TraceOk(n: nat, guarded: bool, t: Trace)
  {
    t.Then? ==> TraceOk(n, guarded, t.before) && EntryOk(n, guarded, t.before, t.entry)
  }

  // ---- What holds of every reachable state ----

  predicate NoRepeats(s: seq<int>) { forall i, j :: 0 <= i < j < |s| ==> s[i] != s[j] }

  // The state is what the trace says it should be.
  predicate Agrees(p: Platform, guarded: bool, s: State)
  {
    && TraceOk(p.historySize, guarded, s.trace)
    && !JustFaulted(s.trace)
    && s.fsm == LastState(s.trace)
    && s.tx == SealedSince(s.trace) % U64
    && s.rx == HighWater(s.trace)
    && s.history == Suffix(FreshIds(s.trace), p.historySize)
    && NoRepeats(s.history)
    && (guarded ==> s.secret != [])
    && (guarded && (Fsm.IsSynchronized(s.fsm) || s.fsm == Fsm.Handshake) ==> SyncLive(s.trace))
  }

  function RetriesAllowed(s: State): nat { if s.retryLimit == 0 then 1 else s.retryLimit }

  predicate QueueOk(p: Platform, s: State)
  {
    && |s.queue| <= p.capacity
    && s.retryLimit < 256
    && (forall f :: f in s.queue ==> |f.payload| <= MAX_PAYLOAD && RequiresAck(f.cmd))
    && (Fsm.IsAwaitingAck(s.fsm) ==>
          s.queue != [] && s.queue[0].cmd == s.lastCmd && s.retryCount < RetriesAllowed(s))
  }

  predicate Good(p: Platform, guarded: bool, s: State)
  {
    p.historySize > 0 && Agrees(p, guarded, s) && QueueOk(p, s)
  }

  // ---- Each step keeps it ----

  lemma MoveAgrees(p: Platform, g: bool, s: State, e: Fsm.Event)
    requires Agrees(p, g, s)
    requires g && e.HandshakeStart? ==> SyncLive(s.trace)
    ensures Agrees(p, g, Move(s, e))
  {
  }

  lemma SafeStateGood(p: Platform, g: bool, s: State)
    requires Good(p, g, s)
    ensures Good(p, g, EnterSafeState(s))
  {
  }

  lemma NextCounter(n: nat)
    ensures (n % U64 + 1) % U64 == (n + 1) % U64
  {
  }

  lemma TransmitGood(p: Platform, g: bool, s: State, cmd: int, seqId: int, payload: Bytes)
    requires Good(p, g, s)
    ensures Good(p, g, Transmit(p, s, cmd, seqId, payload))
  {
    hide Good, EntryOk;
    var c := (s.tx + 1) % U64;
    SealGood(p, g, s, c);
    forall s1: State, e: Envelope | Good(p, g, s1) ensures Good(p, g, Send(s1, e)) { SendGood(p, g, s1, e); }
  }

  lemma SendGood(p: Platform, g: bool, s: State, e: Envelope)
    requires Good(p, g, s)
    ensures Good(p, g, Send(s, e))
  {
    hide TraceOk, Suffix, NoRepeats;
  }

  lemma SealGood(p: Platform, g: bool, s: State, c: nat)
    requires Good(p, g, s) && c == (s.tx + 1) % U64
    ensures Good(p, g, Log(s.(tx := c), Sealed(c)))
  {
    NextCounter(SealedSince(s.trace));
  }

  lemma FlushGood(p: Platform, g: bool, s: State)
    requires Good(p, g, s)
    ensures Good(p, g, Flush(p, s))
  {
    if s.queue != [] && s.txEnabled {
      var f := s.queue[0];
      var s1 := Move(s.(lastCmd := f.cmd, retryCount := 0), Fsm.SendCritical);
      assert Good(p, g, s1);
      TransmitGood(p, g, s1, f.cmd, f.seqId, f.payload);
    }
  }

  lemma RetransmitGood(p: Platform, g: bool, s: State)
    requires Good(p, g, s)
    ensures Good(p, g, Retransmit(p, s))
  {
    if s.queue != [] {
      TransmitGood(p, g, s, s.queue[0].cmd, s.queue[0].seqId, s.queue[0].payload);
    }
  }

  lemma EnqueueGood(p: Platform, g: bool, s: State, f: Pending)
    requires Good(p, g, s) && |s.queue| < p.capacity && |f.payload| <= MAX_PAYLOAD && RequiresAck(f.cmd)
    ensures Good(p, g, Enqueue(p, s, f))
  {
    var s1 := s.(queue := s.queue + [f]);
    assert Good(p, g, s1);
    if !Fsm.IsAwaitingAck(s.fsm) {
      FlushGood(p, g, s1);
    }
  }

  lemma SendFrameGood(p: Platform, g: bool, s: State, cmd: int, seqId: int, payload: Bytes)
    requires Good(p, g, s)
    ensures Good(p, g, SendFrame(p, s, cmd, seqId, payload).0)
  {
    hide Enqueue, Transmit, Agrees;
    if RequiresAck(cmd) && |s.queue| < p.capacity {
      EnqueueGood(p, g, s, Pending(cmd, seqId, Take(payload, MAX_PAYLOAD)));
    }
    TransmitGood(p, g, s, cmd, seqId, Take(payload, MAX_PAYLOAD));
  }

  lemma SendMessageGood(p: Platform, g: bool, s: State, cmd: int, seqId: int, body: Body, encoded: Option<Bytes>)
    requires Good(p, g, s)
    ensures Good(p, g, SendMessage(p, s, cmd, seqId, body, encoded).0)
  {
    hide Enqueue, Transmit, Agrees;
    SendGood(p, g, s, Envelope(cmd, seqId, [], body));
    if encoded.Some? {
      if RequiresAck(cmd) && |s.queue| < p.capacity {
        EnqueueGood(p, g, s, Pending(cmd, seqId, Take(encoded.value, MAX_PAYLOAD)));
      }
      TransmitGood(p, g, s, cmd, seqId, Take(encoded.value, MAX_PAYLOAD));
    }
  }

  lemma EmitStatusGood(p: Platform, g: bool, s: State, code: int)
    requires Good(p, g, s)
    ensures Good(p, g, EmitStatus(p, s, code))
  {
    SendFrameGood(p, g, s, code, 0, []);
    SafeStateGood(p, g, SendFrame(p, s, code, 0, []).0);
  }

  lemma {:induction false} ApplyAllGood(p: Platform, g: bool, s: State, ops: seq<SendOp>)
    requires Good(p, g, s)
    ensures Good(p, g, ApplyAll(p, s, ops))
    decreases |ops|
  {
    if ops != [] {
      ApplyGood(p, g, s, ops[0]);
      ApplyAllGood(p, g, Apply(p, s, ops[0]), ops[1..]);
    }
  }

  lemma ApplyGood(p: Platform, g: bool, s: State, op: SendOp)
    requires Good(p, g, s)
    ensures Good(p, g, Apply(p, s, op))
  {
    match op
    case Frame(cmd, seqId, payload) => SendFrameGood(p, g, s, cmd, seqId, payload);
    case Packet(cmd, seqId, body, encoded) => SendMessageGood(p, g, s, cmd, seqId, body, encoded);
  }

  lemma AckTimeoutGood(p: Platform, g: bool, s: State)
    requires Good(p, g, s)
    ensures Good(p, g, AckTimeout(p, s))
  {
    hide Retransmit;
    if Fsm.IsAwaitingAck(s.fsm) {
      var s1 := s.(retryCount := (s.retryCount + 1) % 256);
      assert s1.retryCount == s.retryCount + 1;
      if s1.retryCount < s1.retryLimit {
        assert Good(p, g, s1);
        RetransmitGood(p, g, s1);
      } else {
        MoveAgrees(p, g, s1, Fsm.Timeout);
        assert Move(s1, Fsm.Timeout).fsm == Fsm.Fault;
      }
    }
  }

  lemma HandleAckGood(p: Platform, g: bool, s: State, cmd: int)
    requires Good(p, g, s)
    ensures Good(p, g, HandleAck(p, s, cmd))
  {
    if Fsm.IsAwaitingAck(s.fsm) && cmd == s.lastCmd {
      var s1 := Move(s.(queue := []), Fsm.AckReceived);
      assert Good(p, g, s1);
      FlushGood(p, g, s1);
    }
  }

  lemma LinkSyncGood(p: Platform, g: bool, s: State, seqId: int, nonce: Bytes, tag: Bytes)
    requires Good(p, g, s)
    ensures Good(p, g, HandleLinkSync(p, s, seqId, nonce, tag))
  {
    hide EmitStatus, SendMessage, Good, Move;
    var n := Take(nonce, HANDSHAKE_NONCE_LENGTH);
    if s.secret != [] && !TagAccepted(p, s, n, tag) {
      FailedGood(p, g, s);
      EmitStatusGood(p, g, Move(s, Fsm.HandshakeFailed), STATUS_ERROR);
    } else {
      var s1 := if s.secret == [] then s
                else Log(s.(key := p.crypto.sessionKey(s.secret, n), tx := 0, rx := 0), SyncAccepted(n));
      AdoptGood(p, g, s, n);
      HandshakeMovesGood(p, g, s1);
      var reply := if s.secret == [] then [] else p.crypto.tag(s.secret, n);
      var s2 := Move(Move(s1, Fsm.HandshakeStart), Fsm.HandshakeComplete);
      SendMessageGood(p, g, s2, CMD_LINK_SYNC_RESP, seqId, Sync(n, reply), None);
    }
  }

  lemma FailedGood(p: Platform, g: bool, s: State)
    requires Good(p, g, s)
    ensures Good(p, g, Move(s, Fsm.HandshakeFailed))
  {
    hide Agrees;
    MoveAgrees(p, g, s, Fsm.HandshakeFailed);
  }

  lemma AdoptGood(p: Platform, g: bool, s: State, n: Bytes)
    requires Good(p, g, s)
    ensures g ==> s.secret != []
    ensures var s1 := Log(s.(key := p.crypto.sessionKey(s.secret, n), tx := 0, rx := 0), SyncAccepted(n));
            Good(p, g, s1) && SyncLive(s1.trace)
  {
  }

  lemma HandshakeMovesGood(p: Platform, g: bool, s: State)
    requires Good(p, g, s)
    requires g ==> SyncLive(s.trace)
    ensures Good(p, g, Move(Move(s, Fsm.HandshakeStart), Fsm.HandshakeComplete))
  {
    hide Agrees;
    MoveAgrees(p, g, s, Fsm.HandshakeStart);
    MoveAgrees(p, g, Move(s, Fsm.HandshakeStart), Fsm.HandshakeComplete);
  }

  lemma ResetGood(p: Platform, g: bool, s: State, limit: nat)
    requires Good(p, g, s)
    ensures limit < 256 || limit == s.retryLimit ==> Good(p, g, Move(s.(retryLimit := limit), Fsm.Reset))
  {
    MoveAgrees(p, g, s.(retryLimit := limit), Fsm.Reset);
  }

  lemma LinkResetGood(p: Platform, g: bool, s: State, env: Envelope)
    requires Good(p, g, s)
    ensures Good(p, g, HandleLinkReset(p, s, env))
  {
    hide SendFrame, ConfigOf, Good, Move;
    var limit := ConfigOf(p, env.body);
    var s1 := if limit.Some? then s.(retryLimit := limit.value % 256) else s;
    ResetGood(p, g, s, s.retryLimit);
    if limit.Some? { ResetGood(p, g, s, limit.value % 256); }
    SendFrameGood(p, g, Move(s1, Fsm.Reset), CMD_LINK_RESET_RESP, env.seqId, []);
  }

  lemma HandlerGood(p: Platform, g: bool, s: State, k: Kind, env: Envelope, fx: Effects)
    requires Good(p, g, s)
    requires g && !IsSystem(env.cmd) ==> SyncLive(s.trace) && JustOpened(s.trace, env.seqId)
    requires !k.Unrouted? ==> LastArrival(s.trace) == Some((env.seqId, false))
    ensures Good(p, g, RunHandler(p, s, k, env, fx))
  {
    hide HandleAck, HandleLinkSync, HandleLinkReset, ApplyAll, EmitStatus;
    var h := Log(s, Handled(env.cmd, env.seqId, !k.Unrouted?));
    assert Good(p, g, h);
    EmitStatusGood(p, g, s, STATUS_MALFORMED);
    match k
    case StatusAck =>
      if env.body.Ack? {
        HandleAckGood(p, g, h, env.body.command);
      } else if env.body.Blob? && p.decodeAck(env.body.data).Some? {
        HandleAckGood(p, g, h, p.decodeAck(env.body.data).value);
      }
    case LinkSync =>
      if env.body.Sync? {
        LinkSyncGood(p, g, h, env.seqId, env.body.nonce, env.body.tag);
      } else if env.body.Blob? && p.decodeSync(env.body.data).Some? {
        var m := p.decodeSync(env.body.data).value;
        LinkSyncGood(p, g, h, env.seqId, m.0, m.1);
      }
    case LinkReset => LinkResetGood(p, g, h, env);
    case Xoff =>
    case Xon =>
    case _ => ApplyAllGood(p, g, h, fx.sends);
  }

  lemma RouteGood(p: Platform, g: bool, s: State, k: Kind, env: Envelope, dup: bool, fx: Effects)
    requires Good(p, g, s)
    requires g && !IsSystem(env.cmd) ==> SyncLive(s.trace) && JustOpened(s.trace, env.seqId)
    requires LastArrival(s.trace) == Some((env.seqId, dup))
    ensures Good(p, g, Route(p, s, k, env, dup, fx))
  {
    var s1 := if NeedsAck(k) then Acknowledge(s, env.cmd, env.seqId) else s;
    assert Good(p, g, s1);
    RetransmitGood(p, g, s1);
    if k.Unrouted? {
      HandlerGood(p, g, s, k, env, fx);
    } else if !dup {
      HandlerGood(p, g, s1, k, env, fx);
    }
  }

  // The circular history keeps the last fresh ids, without repeats.
  lemma RememberSuffix(p: Platform, ids: seq<int>, id: int)
    requires p.historySize > 0
    requires id !in Suffix(ids, p.historySize) && NoRepeats(Suffix(ids, p.historySize))
    ensures Remember(p, Suffix(ids, p.historySize), id) == Suffix(ids + [id], p.historySize)
    ensures NoRepeats(Suffix(ids + [id], p.historySize))
  {
    var n := p.historySize;
    var was, now := Suffix(ids, n), Suffix(ids + [id], n);
    if |ids| >= n {
      assert now == ids[|ids| - n + 1..] + [id];
      assert was[1..] == ids[|ids| - n + 1..];
    } else {
      assert now == ids + [id];
    }
  }

  lemma ArrivalGood(p: Platform, g: bool, s: State, id: int)
    requires Good(p, g, s)
    ensures id in s.history ==> Good(p, g, Log(s, Arrived(id, true)))
    ensures id !in s.history ==>
              Good(p, g, Log(s, Arrived(id, false)).(history := Remember(p, s.history, id)))
  {
    hide Suffix, NoRepeats, Remember;
    if id !in s.history {
      RememberSuffix(p, FreshIds(s.trace), id);
    }
  }

  lemma DispatchGood(p: Platform, g: bool, s: State, env: Envelope, fx: Effects)
    requires Good(p, g, s)
    requires g && !IsSystem(env.cmd) && Fsm.IsSynchronized(s.fsm) ==> s.trace.Then? && s.trace.entry.Opened?
    ensures Good(p, g, Dispatch(p, s, env, fx))
  {
    hide Lookup, Route, SendFrame, EmitStatus, EnterSafeState, ApplyAll, TraceOk, Suffix;
    var dup := env.seqId in s.history;
    ArrivalGood(p, g, s, env.seqId);
    var s0 := Log(s, Arrived(env.seqId, dup));
    var s1 := if dup then s0 else s0.(history := Remember(p, s.history, env.seqId));
    assert LastArrival(s1.trace) == Some((env.seqId, dup));
    if !Permitted(s1, env.cmd) {
      SendFrameGood(p, g, s1, STATUS_ERROR, env.seqId, []);
    } else if env.cmd == STATUS_OK {
      assert Good(p, g, Acknowledge(s1, env.cmd, env.seqId));
    } else if env.cmd == STATUS_MALFORMED {
      SafeStateGood(p, g, s1);
    } else if Lookup(TABLE, env.cmd).Some? {
      RouteGood(p, g, s1, Lookup(TABLE, env.cmd).value, env, dup, fx);
    } else {
      EmitStatusGood(p, g, s1, STATUS_ERROR);
      UnknownGood(p, g, s1, env, fx);
    }
  }

  lemma UnknownGood(p: Platform, g: bool, s: State, env: Envelope, fx: Effects)
    requires Good(p, g, s) && Permitted(s, env.cmd)
    requires g && !IsSystem(env.cmd) ==> JustOpened(s.trace, env.seqId)
    ensures Good(p, g, ApplyAll(p, Log(s, Handled(env.cmd, env.seqId, false)), fx.sends))
  {
    var h := Log(s, Handled(env.cmd, env.seqId, false));
    assert Good(p, g, h);
    ApplyAllGood(p, g, h, fx.sends);
  }

  lemma ReceiveGood(p: Platform, g: bool, s: State, frame: Option<Envelope>, fx: Effects)
    requires Good(p, g, s)
    ensures Good(p, g, Receive(p, s, frame, fx))
  {
    hide Dispatch, EmitStatus;
    EmitStatusGood(p, g, s, STATUS_MALFORMED);
    EmitStatusGood(p, g, s, STATUS_ERROR);
    if frame.Some? {
      var env := frame.value;
      if !(s.Secured() && !IsSystem(env.cmd)) {
        DispatchGood(p, g, s, env, fx);
      } else if |Cipher(env)| >= TAG_LENGTH {
        var text := p.crypto.open(s.key, NonceField(env), env.cmd, env.seqId, Cipher(env));
        var (newer, counter) := Nonce.ValidateFrame(NonceField(env), s.rx);
        if text.Some? && newer {
          var s1 := Log(s.(rx := counter), Opened(counter));
          assert Good(p, g, s1);
          DispatchGood(p, g, s1, env.(body := Blob(text.value)), fx);
        }
      }
    }
  }

  lemma BeginGood(p: Platform, g: bool, s: State, secret: Bytes, ok: bool)
    requires Good(p, g, s)
    requires g ==> secret != []
    ensures Good(p, g, Begin(s, secret, ok))
  {
    var s1 := Move(s.(secret := Take(secret, 64)), Fsm.Reset);
    assert Good(p, g, s1);
    SafeStateGood(p, g, s1);
  }

  lemma StepGood(p: Platform, g: bool, s: State, i: Input)
    requires Good(p, g, s)
    requires g && i.Restart? ==> i.secret != []
    ensures Good(p, g, Step(p, s, i))
  {
    hide Receive, Apply, AckTimeout, EnterSafeState, Begin;
    match i
    case Incoming(frame, fx) => ReceiveGood(p, g, s, frame, fx);
    case App(op) => ApplyGood(p, g, s, op);
    case AckTimer => AckTimeoutGood(p, g, s);
    case HandshakeTimer => MoveAgrees(p, g, s, Fsm.Timeout);
    case DedupeTimer =>
    case Unsafe => SafeStateGood(p, g, s);
    case Restart(secret, ok) => BeginGood(p, g, s, secret, ok);
  }

  // ---- Whole runs ----

  // Every restart uses a secret.
  predicate Secrets(inputs: seq<Input>)
  {
    forall i :: 0 <= i < |inputs| && inputs[i].Restart? ==> inputs[i].secret != []
  }

  // Every reachable state is the one its trace describes, and its queue is in order.
  lemma {:induction false} Reachable(p: Platform, guarded: bool, secret: Bytes, ok: bool, inputs: seq<Input>)
    requires p.historySize > 0
    requires guarded ==> secret != [] && Secrets(inputs)
    ensures Good(p, guarded, Run(p, Booted(secret, ok), inputs))
  {
    if inputs == [] {
      var blank := State(Fsm.Startup, secret, [], 0, 0, true, [], 0, DEFAULT_RETRY_LIMIT, 0, [], [], Start);
      assert Good(p, guarded, blank);
      BeginGood(p, guarded, blank, secret, ok);
      assert Begin(blank, secret, ok) == Booted(secret, ok);
    } else {
      var front := inputs[..|inputs| - 1];
      Reachable(p, guarded, secret, ok, front);
      StepGood(p, guarded, Run(p, Booted(secret, ok), front), inputs[|inputs| - 1]);
    }
  }

  // ---- Reading a trace: u is an initial part of t ----

  predicate Extends(t: Trace, u: Trace)
  {
    t == u || (t.Then? && Extends(t.before, u))
  }

  lemma {:induction false} EntryLaw(n: nat, guarded: bool, t: Trace, u: Trace)
    requires TraceOk(n, guarded, t) && Extends(t, u) && u.Then?
    ensures EntryOk(n, guarded, u.before, u.entry)
  {
    if t != u {
      EntryLaw(n, guarded, t.before, u);
    }
  }

  // The part of t after u holds no reset, handshake failure or timeout.
  predicate NoDrops(t: Trace, u: Trace)
  {
    t == u || (t.Then? && NoDrops(t.before, u) && !(t.entry.Moved? && Drops(t.entry.event)))
  }

  lemma {:induction false} SyncLiveMeaning(t: Trace)
    ensures SyncLive(t) <==> exists u :: Extends(t, u) && u.Then? && u.entry.SyncAccepted? && NoDrops(t, u)
  {
    if t.Then? {
      SyncLiveMeaning(t.before);
      if t.entry.SyncAccepted? {
        assert Extends(t, t) && NoDrops(t, t);
      } else if SyncLive(t) {
        var u :| Extends(t.before, u) && u.Then? && u.entry.SyncAccepted? && NoDrops(t.before, u);
        assert Extends(t, u) && NoDrops(t, u);
      }
    }
  }

  // With a secret set, a handler for a non-system command runs only for a frame that was itself
  // authenticated right before, and only if a LINK_SYNC was accepted before it and nothing has
  // dropped the link since.
  lemma HandlersNeedSync(p: Platform, secret: Bytes, ok: bool, inputs: seq<Input>, u: Trace)
    requires p.historySize > 0 && secret != [] && Secrets(inputs)
    requires Extends(Run(p, Booted(secret, ok), inputs).trace, u)
    requires u.Then? && u.entry.Handled? && !IsSystem(u.entry.cmd)
    ensures JustOpened(u.before, u.entry.seqId)
    ensures exists v :: Extends(u.before, v) && v.Then? && v.entry.SyncAccepted? && NoDrops(u.before, v)
  {
    Reachable(p, true, secret, ok, inputs);
    EntryLaw(p.historySize, true, Run(p, Booted(secret, ok), inputs).trace, u);
    SyncLiveMeaning(u.before);
  }

  // A helper: each transition into Fault logs the entry action, so no run separates the two.
  lemma FaultForcesPins(p: Platform, secret: Bytes, ok: bool, inputs: seq<Input>, u: Trace)
    requires p.historySize > 0
    requires Extends(Run(p, Booted(secret, ok), inputs).trace, u) && JustFaulted(u)
    ensures Extends(Run(p, Booted(secret, ok), inputs).trace, Then(u, SafePins))
  {
    Reachable(p, false, secret, ok, inputs);
    PinsFollow(p.historySize, Run(p, Booted(secret, ok), inputs).trace, u);
  }

  lemma {:induction false} PinsFollow(n: nat, t: Trace, u: Trace)
    requires TraceOk(n, false, t) && !JustFaulted(t) && Extends(t, u) && JustFaulted(u)
    ensures Extends(t, Then(u, SafePins))
  {
    if t.before == u {
      assert t == Then(u, SafePins);
    } else if JustFaulted(t.before) {
      StillFollows(n, t, u);
    } else {
      PinsFollow(n, t.before, u);
    }
  }

  lemma {:induction false} StillFollows(n: nat, t: Trace, u: Trace)
    requires TraceOk(n, false, t) && t.Then? && Extends(t.before, u) && JustFaulted(u)
    ensures Extends(t, Then(u, SafePins))
  {
    if t.before == u {
      assert t == Then(u, SafePins);
    } else {
      StillFollows(n, t.before, u);
    }
  }

  predicate HasReset(t: Trace, u: Trace)
  {
    t != u && t.Then? && ((t.entry.Moved? && t.entry.event.Reset?) || HasReset(t.before, u))
  }

  // From Startup or Fault the link does not synchronise without a reset in between.
  lemma NoSyncWithoutReset(p: Platform, secret: Bytes, ok: bool, inputs: seq<Input>, t: Trace, u: Trace)
    requires p.historySize > 0
    requires Extends(Run(p, Booted(secret, ok), inputs).trace, t) && Extends(t, u)
    requires LastState(u) == Fsm.Startup || LastState(u) == Fsm.Fault
    requires Fsm.IsSynchronized(LastState(t))
    ensures HasReset(t, u)
  {
    Reachable(p, false, secret, ok, inputs);
    PrefixOk(p.historySize, Run(p, Booted(secret, ok), inputs).trace, t);
    StaysDown(p.historySize, t, u);
  }

  lemma {:induction false} PrefixOk(n: nat, t: Trace, u: Trace)
    requires TraceOk(n, false, t) && Extends(t, u)
    ensures TraceOk(n, false, u)
  {
    if t != u {
      PrefixOk(n, t.before, u);
    }
  }

  lemma {:induction false} StaysDown(n: nat, t: Trace, u: Trace)
    requires TraceOk(n, false, t) && Extends(t, u)
    requires LastState(u) == Fsm.Startup || LastState(u) == Fsm.Fault
    ensures HasReset(t, u) || LastState(t) == Fsm.Startup || LastState(t) == Fsm.Fault
  {
    if t != u {
      StaysDown(n, t.before, u);
    }
  }

  // ---- Nonce counters ----

  // The part of t after u accepts no LINK_SYNC.
  predicate SameSession(t: Trace, u: Trace)
  {
    t == u || (t.Then? && !t.entry.SyncAccepted? && SameSession(t.before, u))
  }

  // Frames the firmware encrypts in one session carry strictly increasing counters,
  // retransmissions included, as long as the 64-bit counter has not wrapped.
  lemma SealedIncrease(p: Platform, secret: Bytes, ok: bool, inputs: seq<Input>, t: Trace, u: Trace)
    requires p.historySize > 0
    requires Extends(Run(p, Booted(secret, ok), inputs).trace, t) && SameSession(t, u) && t != u
    requires t.Then? && t.entry.Sealed? && u.Then? && u.entry.Sealed?
    ensures SealedSince(t) < U64 ==> u.entry.counter < t.entry.counter
  {
    Reachable(p, false, secret, ok, inputs);
    PrefixOk(p.historySize, Run(p, Booted(secret, ok), inputs).trace, t);
    SealedOrder(p.historySize, t, u);
  }

  lemma SealedOrder(n: nat, t: Trace, u: Trace)
    requires TraceOk(n, false, t) && SameSession(t, u) && t != u
    requires t.Then? && t.entry.Sealed? && u.Then? && u.entry.Sealed?
    ensures SealedSince(t) < U64 ==> u.entry.counter < t.entry.counter
  {
    SessionExtends(t, u);
    EntryLaw(n, false, t, t);
    EntryLaw(n, false, t, u);
    SealedGrows(t.before, u);
    assert SealedSince(u) == SealedSince(u.before) + 1 && SealedSince(t) == SealedSince(t.before) + 1;
    if SealedSince(t) < U64 {
      SmallMod(SealedSince(t));
      SmallMod(SealedSince(u));
    }
  }

  lemma SmallMod(n: nat)
    requires n < U64
    ensures n % U64 == n
  {
  }

  lemma {:induction false} SessionExtends(t: Trace, u: Trace)
    requires SameSession(t, u)
    ensures Extends(t, u)
  {
    if t != u {
      SessionExtends(t.before, u);
    }
  }

  lemma {:induction false} SealedGrows(t: Trace, u: Trace)
    requires SameSession(t, u)
    ensures SealedSince(u) <= SealedSince(t)
  {
    if t != u {
      SealedGrows(t.before, u);
    }
  }

  // Whatever arrives, dropped, repeated, reordered or forged, the counters accepted in
  // one session are strictly increasing, so none is accepted twice.
  lemma OpenedIncrease(p: Platform, secret: Bytes, ok: bool, inputs: seq<Input>, t: Trace, u: Trace)
    requires p.historySize > 0
    requires Extends(Run(p, Booted(secret, ok), inputs).trace, t) && SameSession(t, u) && t != u
    requires t.Then? && t.entry.Opened? && u.Then? && u.entry.Opened?
    ensures u.entry.counter < t.entry.counter
  {
    Reachable(p, false, secret, ok, inputs);
    var run := Run(p, Booted(secret, ok), inputs).trace;
    PrefixOk(p.historySize, run, t);
    WaterRises(p.historySize, t.before, u);
  }

  lemma {:induction false} WaterRises(n: nat, t: Trace, u: Trace)
    requires TraceOk(n, false, t) && SameSession(t, u) && u.Then? && u.entry.Opened?
    ensures HighWater(t) >= u.entry.counter
  {
    if t != u {
      WaterRises(n, t.before, u);
    }
  }

  // ---- Receive deduplication ----

  // The history is the last historySize fresh ids since it was cleared, without repeats,
  // and a routed handler runs only for an id that was outside it on arrival.
  lemma HistoryIsRecent(p: Platform, secret: Bytes, ok: bool, inputs: seq<Input>)
    requires p.historySize > 0
    ensures var s := Run(p, Booted(secret, ok), inputs);
            && s.history == Suffix(FreshIds(s.trace), p.historySize)
            && NoRepeats(s.history) && |s.history| <= p.historySize
  {
    Reachable(p, false, secret, ok, inputs);
  }

  lemma RoutedIdsAreFresh(p: Platform, secret: Bytes, ok: bool, inputs: seq<Input>, u: Trace)
    requires p.historySize > 0
    requires Extends(Run(p, Booted(secret, ok), inputs).trace, u)
    requires u.Then? && u.entry.Handled? && u.entry.routed
    ensures exists a :: Extends(u.before, a) && a.Then? && a.entry == Arrived(u.entry.seqId, false)
                        && u.entry.seqId !in Suffix(FreshIds(a.before), p.historySize)
  {
    Reachable(p, false, secret, ok, inputs);
    var run := Run(p, Booted(secret, ok), inputs).trace;
    EntryLaw(p.historySize, false, run, u);
    PrefixOk(p.historySize, run, u);
    var a := ArrivalPoint(u.before);
    EntryLaw(p.historySize, false, u.before, a);
  }

  // The most recent arrival in a trace that has one.
  function ArrivalPoint(t: Trace): (a: Trace)
    requires LastArrival(t).Some?
    ensures Extends(t, a) && a.Then?
    ensures a.entry.Arrived? && (a.entry.seqId, a.entry.duplicate) == LastArrival(t).value
  {
    if t.entry.Arrived? then t else ArrivalPoint(t.before)
  }
}
