// The timing a LINK_RESET may carry: when the firmware's retry limit changes, and that it never
// does for the frames the daemon sends.
module LinkTiming {
  import opened BigEndian
  import opened Wrappers
  import opened Protocol
  import opened Crypto
  import opened Frames
  import opened Mcu
  import McuRetry
  import Link
  import LinkProgress
  import Daemon
  import Fsm = McuFsm

  // ---- One LINK_RESET ----

  // A blob that decodes to a configuration.
  predicate Carries(p: Platform, body: Body) { body.Blob? && p.decodeConfig(body.data).Some? }

  // A LINK_RESET sets the retry limit exactly if its id is fresh and its body is a decodable blob,
  // and then to the configured value cut to eight bits.
  lemma ResetSetsLimitIff(p: Platform, s: State, f: Envelope, fx: Effects)
    requires f.cmd == CMD_LINK_RESET
    ensures Receive(p, s, Some(f), fx).retryLimit ==
              if f.seqId !in s.history && Carries(p, f.body) then p.decodeConfig(f.body.data).value % 256 else s.retryLimit
  {
    hide Lookup, Receive, EmitStatus, ApplyAll, HandleAck, HandleLinkSync, HandleLinkReset;
    LinkProgress.ResetIsListed();
    LinkProgress.Reaches(p, s, f, LinkReset, fx);
    LinkProgress.ResetHandled(p, Log(LinkProgress.Noted(p, s, f, false), Handled(f.cmd, f.seqId, true)), f);
  }

  // The daemon sends its configuration as a message of its own kind, and that one is ignored.
  lemma TypedConfigIgnored(p: Platform, s: State, f: Envelope, limit: nat, fx: Effects)
    requires f.cmd == CMD_LINK_RESET && f.body == Config(limit)
    ensures Receive(p, s, Some(f), fx).retryLimit == s.retryLimit
  {
    hide Receive;
    ResetSetsLimitIff(p, s, f, fx);
  }

  // ---- Every other step leaves the limit alone ----

  lemma TransmitLimit(p: Platform, s: State, cmd: int, seqId: int, payload: Bytes)
    ensures Transmit(p, s, cmd, seqId, payload).retryLimit == s.retryLimit
  {
  }

  lemma FlushLimit(p: Platform, s: State)
    ensures Flush(p, s).retryLimit == s.retryLimit
  {
    hide Transmit;
    if s.queue != [] {
      var f := s.queue[0];
      TransmitLimit(p, Move(s.(lastCmd := f.cmd, retryCount := 0), Fsm.SendCritical), f.cmd, f.seqId, f.payload);
    }
  }

  lemma RetransmitLimit(p: Platform, s: State)
    ensures Retransmit(p, s).retryLimit == s.retryLimit
  {
    hide Transmit;
    if s.queue != [] { TransmitLimit(p, s, s.queue[0].cmd, s.queue[0].seqId, s.queue[0].payload); }
  }

  lemma SendLimit(p: Platform, s: State, op: SendOp)
    ensures Apply(p, s, op).retryLimit == s.retryLimit
  {
    hide Transmit, Flush;
    forall payload: Bytes { TransmitLimit(p, s, op.cmd, op.seqId, payload); }
    forall f: Pending { FlushLimit(p, s.(queue := s.queue + [f])); }
  }

  lemma {:induction false} SendsLimit(p: Platform, s: State, ops: seq<SendOp>)
    ensures ApplyAll(p, s, ops).retryLimit == s.retryLimit
    decreases |ops|
  {
    if ops != [] {
      hide Apply;
      SendLimit(p, s, ops[0]);
      SendsLimit(p, Apply(p, s, ops[0]), ops[1..]);
    }
  }

  lemma FrameLimit(p: Platform, s: State, cmd: int, seqId: int, payload: Bytes)
    ensures SendFrame(p, s, cmd, seqId, payload).0.retryLimit == s.retryLimit
  {
    hide SendFrame;
    SendLimit(p, s, Frame(cmd, seqId, payload));
  }

  lemma StatusLimit(p: Platform, s: State, code: int)
    ensures EmitStatus(p, s, code).retryLimit == s.retryLimit
  {
    hide SendFrame;
    FrameLimit(p, s, code, 0, []);
  }

  lemma LinkSyncLimit(p: Platform, s: State, seqId: int, nonce: Bytes, tag: Bytes)
    ensures HandleLinkSync(p, s, seqId, nonce, tag).retryLimit == s.retryLimit
  {
    hide EmitStatus;
    StatusLimit(p, Move(s, Fsm.HandshakeFailed), STATUS_ERROR);
  }

  lemma AckLimit(p: Platform, s: State, cmd: int)
    ensures HandleAck(p, s, cmd).retryLimit == s.retryLimit
  {
    hide Flush;
    FlushLimit(p, Move(s.(queue := []), Fsm.AckReceived));
  }

  lemma HandlerLimit(p: Platform, s: State, k: Kind, env: Envelope, fx: Effects)
    requires k.LinkReset? ==> !Carries(p, env.body)
    ensures RunHandler(p, s, k, env, fx).retryLimit == s.retryLimit
  {
    hide HandleAck, HandleLinkSync, HandleLinkReset, ApplyAll, EmitStatus;
    var h := Log(s, Handled(env.cmd, env.seqId, !k.Unrouted?));
    StatusLimit(p, s, STATUS_MALFORMED);
    SendsLimit(p, h, fx.sends);
    LinkProgress.ResetHandled(p, h, env);
    forall c: int { AckLimit(p, h, c); }
    forall n: Bytes, t: Bytes { LinkSyncLimit(p, h, env.seqId, n, t); }
  }

  lemma RouteLimit(p: Platform, s: State, k: Kind, env: Envelope, dup: bool, fx: Effects)
    requires k.LinkReset? ==> !Carries(p, env.body)
    ensures Route(p, s, k, env, dup, fx).retryLimit == s.retryLimit
  {
    hide RunHandler, Retransmit;
    var s1 := if NeedsAck(k) then Acknowledge(s, env.cmd, env.seqId) else s;
    RetransmitLimit(p, s1);
    HandlerLimit(p, s, k, env, fx);
    HandlerLimit(p, s1, k, env, fx);
  }

  lemma OnlyResetIsReset(cmd: int)
    ensures Lookup(TABLE, cmd) == Some(LinkReset) ==> cmd == CMD_LINK_RESET
  {
    hide Lookup;
    McuRetry.LookupHits(TABLE, cmd);
  }

  lemma DispatchLimit(p: Platform, s: State, env: Envelope, fx: Effects)
    requires env.cmd == CMD_LINK_RESET ==> !Carries(p, env.body)
    ensures Dispatch(p, s, env, fx).retryLimit == s.retryLimit
  {
    hide Route, SendFrame, EmitStatus, ApplyAll, Lookup;
    var dup := env.seqId in s.history;
    var s0 := Log(s, Arrived(env.seqId, dup));
    var s1 := if dup then s0 else s0.(history := Remember(p, s.history, env.seqId));
    FrameLimit(p, s1, STATUS_ERROR, env.seqId, []);
    StatusLimit(p, s1, STATUS_ERROR);
    SendsLimit(p, Log(s1, Handled(env.cmd, env.seqId, false)), fx.sends);
    OnlyResetIsReset(env.cmd);
    if Lookup(TABLE, env.cmd).Some? {
      RouteLimit(p, s1, Lookup(TABLE, env.cmd).value, env, dup, fx);
    }
  }

  lemma ReceiveLimit(p: Platform, s: State, frame: Option<Envelope>, fx: Effects)
    requires frame.Some? && frame.value.cmd == CMD_LINK_RESET ==> !Carries(p, frame.value.body)
    ensures Receive(p, s, frame, fx).retryLimit == s.retryLimit
  {
    hide Dispatch, EmitStatus;
    StatusLimit(p, s, STATUS_MALFORMED);
    StatusLimit(p, s, STATUS_ERROR);
    if frame.Some? {
      var env := frame.value;
      DispatchLimit(p, s, env, fx);
      if s.Secured() && !IsSystem(env.cmd) {
        forall r: nat, text: Bytes { DispatchLimit(p, Log(s.(rx := r), Opened(r)), env.(body := Blob(text)), fx); }
      }
    }
  }

  // Only a LINK_RESET with a decodable blob moves the limit, whatever the input.
  lemma StepLimit(p: Platform, s: State, i: Input)
    requires i.Incoming? && i.frame.Some? && i.frame.value.cmd == CMD_LINK_RESET ==> !Carries(p, i.frame.value.body)
    ensures Step(p, s, i).retryLimit == s.retryLimit
  {
    hide Receive, Apply, Retransmit;
    match i
    case Incoming(frame, fx) => ReceiveLimit(p, s, frame, fx);
    case App(op) => SendLimit(p, s, op);
    case AckTimer => RetransmitLimit(p, s.(retryCount := (s.retryCount + 1) % 256));
    case _ =>
  }

  // ---- Every run of the pair ----

  // No LINK_RESET of the daemon carries a blob.
  predicate Typed(e: Link.Event)
  {
    match e
    case DaemonStep(SendResetFrame(_, config)) => !config.Blob?
    case DaemonStep(Send(cmd, _, body, _, _)) => cmd == CMD_LINK_RESET ==> !body.Blob?
    case _ => true
  }

  predicate TypedResets(wire: seq<Envelope>) { forall f :: f in wire ==> f.cmd == CMD_LINK_RESET ==> !f.body.Blob? }

  lemma DaemonWrites(c: Crypto, d: Daemon.State, e: Daemon.Event)
    requires TypedResets(d.wire) && Typed(Link.DaemonStep(e))
    ensures TypedResets(Daemon.Step(c, d, e).wire)
  {
    hide Daemon.SetFsm, Daemon.Fail, Daemon.HandshakeTag, Daemon.SendRaw, Daemon.ProcessPacket, Daemon.OnSyncResp;
    match e
    case Send(cmd, seqId, body, text, random) =>
      if |random| == 4 { SendWrites(c, d, cmd, seqId, body, text, random); }
    case Packet(env) => Daemon.PacketCounts(c, d, env);
    case Response(resp, throttled) => RespWrites(c, d, resp, throttled);
    case _ =>
  }

  lemma SendWrites(c: Crypto, d: Daemon.State, cmd: int, seqId: int, body: Body, text: Bytes, random: Bytes)
    requires |random| == 4 && TypedResets(d.wire) && (cmd == CMD_LINK_RESET ==> !body.Blob?)
    ensures TypedResets(Daemon.SendRaw(c, d, cmd, seqId, body, text, random).wire)
  {
  }

  lemma RespWrites(c: Crypto, d: Daemon.State, resp: Option<(Bytes, Bytes)>, throttled: bool)
    ensures Daemon.OnSyncResp(c, d, resp, throttled).0.wire == d.wire
  {
    hide Daemon.SetFsm, Daemon.Fail;
  }

  lemma HearWrites(c: Crypto, d: Daemon.State, f: Envelope, throttled: bool)
    ensures Link.Hear(c, d, f, throttled).wire == d.wire
  {
    hide Daemon.ProcessPacket, Daemon.OnSyncResp;
    Daemon.PacketCounts(c, d, f);
    RespWrites(c, Daemon.ProcessPacket(c, d, f).0, Link.SyncFields(f.body), throttled);
  }

  // Over every run in which the daemon sends its configuration as it does, as a typed message,
  // the firmware works with its default: the daemon's timing never takes effect.
  lemma {:induction false} TimingNeverApplied(p: Platform, ds: Bytes, ms: Bytes, threshold: nat, ok: bool, events: seq<Link.Event>)
    requires Link.Legal(p, Link.Initial(ds, ms, threshold, ok), events) && forall e :: e in events ==> Typed(e)
    ensures var w := Link.Run(p, Link.Initial(ds, ms, threshold, ok), events);
            w.m.retryLimit == DEFAULT_RETRY_LIMIT && TypedResets(w.d.wire)
  {
    if events != [] {
      var front, e := events[..|events| - 1], events[|events| - 1];
      TimingNeverApplied(p, ds, ms, threshold, ok, front);
      assert e in events;
      PairStep(p, Link.Run(p, Link.Initial(ds, ms, threshold, ok), front), e);
    }
  }

  lemma PairStep(p: Platform, w: Link.Pair, e: Link.Event)
    requires TypedResets(w.d.wire) && Typed(e) && Link.Allowed(w, e)
    ensures var w' := Link.Step(p, w, e); TypedResets(w'.d.wire) && w'.m.retryLimit == w.m.retryLimit
  {
    hide Step, Receive, Daemon.Step, Link.Hear;
    match e
    case DaemonStep(e) => DaemonWrites(p.crypto, w.d, e);
    case McuStep(i) => StepLimit(p, w.m, i);
    case ToMcu(fx) =>
      if w.d.wire != [] {
        assert w.d.wire[0] in w.d.wire;
        ReceiveLimit(p, w.m, Some(w.d.wire[0]), fx);
      }
    case ToDaemon(k, keep, throttled) =>
      if k < |w.m.wire| { HearWrites(p.crypto, w.d, w.m.wire[k], throttled); }
    case LoseToMcu(k) => Link.DropIn(w.d.wire, k);
    case LoseToDaemon(k) =>
  }
}
