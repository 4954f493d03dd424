// Both ends and the two channels between them. The channel to the firmware is a FIFO that
// may lose frames; the one to the daemon may also reorder and duplicate them.
module Link {
  import opened BigEndian
  import opened Wrappers
  import opened Protocol
  import opened Crypto
  import opened Frames
  import opened McuRetry
  import Nonce
  import Daemon
  import Mcu
  import Fsm = McuFsm

  datatype Pair = Pair(d: Daemon.State, m: Mcu.State)

  datatype Event =
    | DaemonStep(e: Daemon.Event)
    | McuStep(i: Mcu.Input)
    | ToMcu(fx: Mcu.Effects)
    | ToDaemon(k: nat, keep: bool, throttled: bool)
    | LoseToMcu(k: nat)
    | LoseToDaemon(k: nat)

  // Frames arrive only through the channels, the random nonces do not repeat, the firmware
  // is not restarted, and only the link layer sends sync responses.
  predicate Allowed(w: Pair, e: Event)
  {
    match e
    case DaemonStep(e) => !e.Response? && !e.Packet? && (e.Start? ==> e.nonce !in w.d.used)
    case McuStep(i) => !i.Restart? && (i.Incoming? ==> i.frame.None?) && (i.App? ==> OpOk(i.op))
    case ToMcu(fx) => OpsOk(fx.sends)
    case _ => true
  }

  function Drop(wire: seq<Envelope>, k: nat): seq<Envelope>
  {
    if k < |wire| then wire[..k] + wire[k + 1..] else wire
  }

  function SyncFields(body: Body): Option<(Bytes, Bytes)>
  {
    match body case Sync(nonce, tag) => Some((nonce, tag)) case _ => None
  }

  // The daemon takes a frame: security checks first, then the handler.
  function Hear(c: Crypto, d: Daemon.State, env: Envelope, throttled: bool): Daemon.State
  {
    var (d1, ok) := Daemon.ProcessPacket(c, d, env);
    if ok && env.cmd == CMD_LINK_SYNC_RESP
    then Daemon.OnSyncResp(c, d1, SyncFields(env.body), throttled).0
    else d1
  }

  function Step(p: Mcu.Platform, w: Pair, e: Event): Pair
  {
    match e
    case DaemonStep(e) => w.(d := Daemon.Step(p.crypto, w.d, e))
    case McuStep(i) => w.(m := Mcu.Step(p, w.m, i))
    case ToMcu(fx) =>
      if w.d.wire == [] then w
      else Pair(w.d.(wire := w.d.wire[1..]), Mcu.Receive(p, w.m, Some(w.d.wire[0]), fx))
    case ToDaemon(k, keep, throttled) =>
      if k >= |w.m.wire| then w
      else Pair(Hear(p.crypto, w.d, w.m.wire[k], throttled),
                if keep then w.m else w.m.(wire := Drop(w.m.wire, k)))
    case LoseToMcu(k) => w.(d := w.d.(wire := Drop(w.d.wire, k)))
    case LoseToDaemon(k) => w.(m := w.m.(wire := Drop(w.m.wire, k)))
  }

  function Run(p: Mcu.Platform, w: Pair, events: seq<Event>): Pair
    decreases |events|
  {
    if events == [] then w else Step(p, Run(p, w, events[..|events| - 1]), events[|events| - 1])
  }

  predicate Legal(p: Mcu.Platform, w: Pair, events: seq<Event>)
    decreases |events|
  {
    events == [] ||
    (Legal(p, w, events[..|events| - 1]) && Allowed(Run(p, w, events[..|events| - 1]), events[|events| - 1]))
  }

  // Each end has a secret of its own; the firmware keeps 64 bytes of its.
  function Initial(ds: Bytes, ms: Bytes, threshold: nat, selfTestsPass: bool): Pair
  {
    Pair(Daemon.Initial(ds, threshold), Mcu.Booted(ms, selfTestsPass))
  }

  // ---- The invariant ----

  predicate IsSync(f: Envelope) { f.cmd == CMD_LINK_SYNC }

  function Counter(f: Envelope): nat
  {
    if |f.nonce| == NONCE_SIZE then Value(f.nonce[4..12]) else 0
  }

  predicate IsSealed(f: Envelope) { Counter(f) > 0 }

  // f carries some text sealed under key.
  ghost predicate Genuine(c: Crypto, key: Bytes, f: Envelope)
  {
    && !IsSystem(f.cmd) && f.body.Blob?
    && exists text: Bytes :: c.seal(key, f.nonce, f.cmd, f.seqId, text) == Some(f.body.data)
  }

  // Both ends have a secret.
  predicate Both(w: Pair) { w.d.secret != [] && w.m.secret != [] }

  // The two secrets authenticate the nonce alike.
  predicate SameTag(c: Crypto, w: Pair, nonce: Bytes) { c.tag(w.d.secret, nonce) == c.tag(w.m.secret, nonce) }

  // Where two secrets give a nonce the same tag, they give it the same session key.
  ghost predicate Compatible(c: Crypto, ds: Bytes, ms: Bytes)
  {
    forall n: Bytes :: |n| == HANDSHAKE_NONCE_LENGTH && c.tag(ds, n) == c.tag(ms, n) ==> c.sessionKey(ds, n) == c.sessionKey(ms, n)
  }

  // A well-formed LINK_SYNC for a nonce of some attempt.
  predicate SyncOk(c: Crypto, secret: Bytes, used: seq<Bytes>, f: Envelope)
  {
    && f.body.Sync? && f.body.nonce in used && |f.body.nonce| == HANDSHAKE_NONCE_LENGTH
    && f.body.tag == Daemon.HandshakeTag(c, secret, f.body.nonce)
  }

  // What may stand before what on the way to the firmware: nothing encrypted after a
  // LINK_SYNC, counters rising, and the newest LINK_SYNC last.
  predicate Before(live: Bytes, f: Envelope, g: Envelope)
  {
    && (IsSync(f) ==> !IsSealed(g))
    && (IsSealed(f) && IsSealed(g) ==> Counter(f) < Counter(g))
    && (Asks(f, live) ==> !IsSync(g))
  }

  predicate Ordered(live: Bytes, wire: seq<Envelope>)
  {
    forall i, j :: 0 <= i < j < |wire| ==> Before(live, wire[i], wire[j])
  }

  predicate NoSync(wire: seq<Envelope>) { forall f :: f in wire ==> !IsSync(f) }

  function Live(used: seq<Bytes>): Bytes { if used == [] then [] else used[|used| - 1] }

  predicate IsReply(f: Envelope) { f.cmd == CMD_LINK_SYNC_RESP }

  predicate Asks(f: Envelope, nonce: Bytes) { IsSync(f) && f.body.Sync? && f.body.nonce == nonce }
  predicate Answers(f: Envelope, nonce: Bytes) { IsReply(f) && f.body.Sync? && f.body.nonce == nonce }

  predicate Asked(wire: seq<Envelope>, nonce: Bytes) { exists f :: f in wire && Asks(f, nonce) }
  predicate Answered(wire: seq<Envelope>, nonce: Bytes) { exists f :: f in wire && Answers(f, nonce) }

  predicate Unwritten(ph: Daemon.Phase) { ph.SendingReset? || ph.Settling? || (ph.SendingSync? && !ph.written) }

  // One frame on the way to the firmware.
  ghost predicate Outbound(c: Crypto, w: Pair, f: Envelope)
  {
    && |f.nonce| == NONCE_SIZE
    && (IsSync(f) ==> SyncOk(c, w.d.secret, w.d.used, f) && !IsSealed(f))
    && (IsSealed(f) && Compatible(c, w.d.secret, w.m.secret) ==> Genuine(c, w.m.key, f))
    && (IsSealed(f) ==> Both(w) && w.m.rx < Counter(f) <= w.d.tx)
  }

  // One frame on the way to the daemon.
  predicate Inbound(c: Crypto, w: Pair, f: Envelope)
  {
    IsReply(f) ==>
      f.body.Sync? && f.body.nonce in w.d.used && f.body.tag == Daemon.HandshakeTag(c, w.m.secret, f.body.nonce)
  }

  predicate Parties(w: Pair)
  {
    && Daemon.Negotiated(w.d) && Reliable(w.m)
    && w.m.rx <= w.d.tx
    && (!w.d.phase.Idle? ==> w.d.used != [] && w.d.phase.nonce == Live(w.d.used) && |w.d.phase.nonce| == HANDSHAKE_NONCE_LENGTH)
  }

  // How far the newest nonce has got.
  predicate Progress(c: Crypto, w: Pair)
  {
    var live := Live(w.d.used);
    && (Unwritten(w.d.phase) ==> !Asked(w.d.wire, live) && !Answered(w.m.wire, live) && w.d.link != Daemon.Synced)
    && (Both(w) && Answered(w.m.wire, live) ==> Joined(c, w, live))
    && (w.d.link == Daemon.Synced ==> Both(w) && Joined(c, w, live) && w.d.sessionKey == Some(c.sessionKey(w.d.secret, live)))
  }

  // The firmware has taken the session of the nonce, and no LINK_SYNC can change that.
  predicate Joined(c: Crypto, w: Pair, nonce: Bytes)
  {
    && |nonce| == HANDSHAKE_NONCE_LENGTH && SameTag(c, w, nonce)
    && w.m.key == c.sessionKey(w.m.secret, nonce) && NoSync(w.d.wire)
  }

  ghost predicate Inv(c: Crypto, w: Pair)
  {
    && Parties(w)
    && Progress(c, w)
    && Ordered(Live(w.d.used), w.d.wire)
    && (forall f :: f in w.d.wire ==> Outbound(c, w, f))
    && (forall f :: f in w.m.wire ==> Inbound(c, w, f))
  }

  // ---- Channel steps ----

  lemma DropIn(wire: seq<Envelope>, k: nat)
    ensures forall f :: f in Drop(wire, k) ==> f in wire
  {
  }

  lemma DropOrdered(live: Bytes, wire: seq<Envelope>, k: nat)
    requires Ordered(live, wire)
    ensures Ordered(live, Drop(wire, k))
  {
    hide Before;
    if k < |wire| {
      var rest := Drop(wire, k);
      forall i, j | 0 <= i < j < |rest| ensures Before(live, rest[i], rest[j]) {
        assert rest[i] == wire[if i < k then i else i + 1];
        assert rest[j] == wire[if j < k then j else j + 1];
      }
    }
  }

  // Losing a frame on the way to the firmware.
  lemma LossKeeps(c: Crypto, w: Pair, k: nat)
    requires Inv(c, w)
    ensures Inv(c, w.(d := w.d.(wire := Drop(w.d.wire, k))))
  {
    hide Drop, IsSealed, Genuine, SyncOk, Before, Asks, Answers;
    DropIn(w.d.wire, k);
    DropOrdered(Live(w.d.used), w.d.wire, k);
  }

  lemma Fewer(c: Crypto, w: Pair, m: Mcu.State)
    requires Inv(c, w) && Quiet(w.m, m) && Reliable(m)
    ensures Inv(c, w.(m := m))
  {
    hide IsSealed, Genuine, SyncOk, Ordered, Asks;
  }

  // What follows the frame at the head of the channel.
  lemma Behind(live: Bytes, wire: seq<Envelope>)
    requires Ordered(live, wire) && wire != []
    ensures forall g :: g in wire[1..] ==> Before(live, wire[0], g)
    ensures Drop(wire, 0) == wire[1..]
  {
  }

  // The firmware takes an encrypted frame.
  lemma OpenKeeps(c: Crypto, w: Pair)
    requires Inv(c, w) && w.d.wire != [] && IsSealed(w.d.wire[0])
    ensures Inv(c, Pair(w.d.(wire := w.d.wire[1..]), w.m.(rx := Counter(w.d.wire[0]))))
  {
    hide Genuine, SyncOk, Asks, Answers, Daemon.Negotiated, Counter, Ordered;
    Behind(Live(w.d.used), w.d.wire);
    LossKeeps(c, w, 0);
    assert w.d.wire[0] in w.d.wire;
  }

  // Taking the session of the nonce, or without a secret only answering it.
  predicate Adopts(c: Crypto, s: Mcu.State, s': Mcu.State, nonce: Bytes)
  {
    && s'.secret == s.secret
    && (if s.secret == [] then s'.rx == s.rx && s'.key == s.key
        else s'.rx == 0 && s'.key == c.sessionKey(s.secret, nonce))
    && (forall e :: e in s'.wire ==> e in s.wire || !IsReply(e)
                                     || e.body == Sync(nonce, Daemon.HandshakeTag(c, s.secret, nonce)))
  }

  // The firmware takes a LINK_SYNC: no encrypted frame is left behind it.
  lemma SyncKeeps(c: Crypto, w: Pair, m: Mcu.State)
    requires Inv(c, w) && w.d.wire != [] && IsSync(w.d.wire[0]) && w.d.wire[0].body.Sync? && Reliable(m)
    requires Adopts(c, w.m, m, w.d.wire[0].body.nonce) && (Both(w) ==> SameTag(c, w, w.d.wire[0].body.nonce))
    ensures Inv(c, Pair(w.d.(wire := w.d.wire[1..]), m))
  {
    hide Genuine, Reliable, Daemon.Negotiated, Counter, Ordered, Compatible, Daemon.HandshakeTag;
    Behind(Live(w.d.used), w.d.wire);
    LossKeeps(c, w, 0);
    assert w.d.wire[0] in w.d.wire;
  }

  // ---- Firmware steps ----

  lemma McuStepKeeps(p: Mcu.Platform, w: Pair, i: Mcu.Input)
    requires Inv(p.crypto, w) && Allowed(w, McuStep(i))
    ensures Inv(p.crypto, w.(m := Mcu.Step(p, w.m, i))) && Mcu.Step(p, w.m, i).secret == w.m.secret
  {
    hide Mcu.EmitStatus, Mcu.Apply, Mcu.EnterSafeState, Mcu.AckTimeout;
    match i
    case Incoming(frame, fx) => EmitStatusCalm(p, w.m, STATUS_MALFORMED);
    case App(op) => ApplyCalm(p, w.m, op);
    case AckTimer => AckTimeoutQuiet(p, w.m);
    case HandshakeTimer =>
    case DedupeTimer =>
    case Unsafe => SafeStateCalm(w.m);
    Fewer(p.crypto, w, Mcu.Step(p, w.m, i));
  }

  lemma AckTimeoutQuiet(p: Mcu.Platform, s: Mcu.State)
    requires Reliable(s)
    ensures Quiet(s, Mcu.AckTimeout(p, s)) && Reliable(Mcu.AckTimeout(p, s))
  {
    hide Mcu.Retransmit;
    RetransmitCalm(p, s.(retryCount := (s.retryCount + 1) % 256));
  }

  // Anything but a LINK_SYNC leaves the session alone, up to the counter it may consume.
  lemma OtherFrame(p: Mcu.Platform, s: Mcu.State, env: Envelope, fx: Mcu.Effects)
    requires Reliable(s) && !IsSync(env) && OpsOk(fx.sends) && |env.nonce| == NONCE_SIZE
    ensures var s' := Mcu.Receive(p, s, Some(env), fx);
            && Reliable(s')
            && (Quiet(s, s') || (Counter(env) > s.rx && Quiet(s.(rx := Counter(env)), s')))
  {
    hide Mcu.Dispatch, Mcu.EmitStatus;
    EmitStatusCalm(p, s, STATUS_ERROR);
    DispatchSettles(p, s, env, fx);
    assert Mcu.NonceField(env) == env.nonce;
    if s.Secured() && !IsSystem(env.cmd) && |Cipher(env)| >= TAG_LENGTH {
      var text := p.crypto.open(s.key, env.nonce, env.cmd, env.seqId, Cipher(env));
      if text.Some? && Counter(env) > s.rx {
        DispatchSettles(p, Mcu.Log(s.(rx := Counter(env)), Mcu.Opened(Counter(env))), env.(body := Blob(text.value)), fx);
      }
    }
  }

  lemma SyncIsListed()
    ensures Mcu.Lookup(Mcu.TABLE, CMD_LINK_SYNC) == Some(Mcu.LinkSync)
  {
    var t := Mcu.TABLE;
    assert t[1..][1..][1..][0] == t[3];
    assert Mcu.Lookup(t[1..][1..][1..], CMD_LINK_SYNC) == Some(Mcu.LinkSync);
    assert Mcu.Lookup(t[1..][1..], CMD_LINK_SYNC) == Some(Mcu.LinkSync);
    assert Mcu.Lookup(t[1..], CMD_LINK_SYNC) == Some(Mcu.LinkSync);
  }

  predicate Accepts(c: Crypto, secret: Bytes, nonce: Bytes, tag: Bytes)
  {
    secret == [] || tag == [] || tag == c.tag(secret, nonce)
  }

  lemma SyncAdopts(p: Mcu.Platform, s: Mcu.State, seqId: int, nonce: Bytes, tag: Bytes)
    requires Reliable(s) && |nonce| == HANDSHAKE_NONCE_LENGTH
    ensures var s' := Mcu.HandleLinkSync(p, s, seqId, nonce, tag);
            if Accepts(p.crypto, s.secret, nonce, tag) then Adopts(p.crypto, s, s', nonce) else Quiet(s, s')
  {
    hide Mcu.EmitStatus;
    assert Take(nonce, HANDSHAKE_NONCE_LENGTH) == nonce;
    MoveCalm(s, Fsm.HandshakeFailed);
    EmitStatusCalm(p, Mcu.Move(s, Fsm.HandshakeFailed), STATUS_ERROR);
  }

  lemma SyncFrame(p: Mcu.Platform, s: Mcu.State, env: Envelope, fx: Mcu.Effects)
    requires Reliable(s) && IsSync(env) && env.body.Sync? && |env.body.nonce| == HANDSHAKE_NONCE_LENGTH
    ensures var s' := Mcu.Receive(p, s, Some(env), fx);
            && Reliable(s')
            && (Quiet(s, s')
                || (Accepts(p.crypto, s.secret, env.body.nonce, env.body.tag) && Adopts(p.crypto, s, s', env.body.nonce)))
  {
    hide Mcu.HandleLinkSync, Mcu.Lookup, Mcu.Retransmit;
    SyncIsListed();
    ReceiveSettles(p, s, Some(env), fx);
    var s0 := Mcu.Log(s, Mcu.Arrived(env.seqId, false)).(history := Mcu.Remember(p, s.history, env.seqId));
    var s1 := Mcu.Acknowledge(s0, env.cmd, env.seqId);
    var h := Mcu.Log(s1, Mcu.Handled(env.cmd, env.seqId, true));
    SyncAdopts(p, h, env.seqId, env.body.nonce, env.body.tag);
  }

  // A LINK_SYNC the firmware accepts has the tag its own secret gives.
  lemma AcceptedTag(c: Crypto, w: Pair, f: Envelope)
    requires c.Correct() && IsSync(f) && SyncOk(c, w.d.secret, w.d.used, f)
    requires Accepts(c, w.m.secret, f.body.nonce, f.body.tag) && Both(w)
    ensures SameTag(c, w, f.body.nonce)
  {
  }

  lemma SyncArrives(p: Mcu.Platform, w: Pair, fx: Mcu.Effects)
    requires Inv(p.crypto, w) && p.crypto.Correct() && w.d.wire != [] && IsSync(w.d.wire[0])
    ensures Inv(p.crypto, Step(p, w, ToMcu(fx))) && Step(p, w, ToMcu(fx)).m.secret == w.m.secret
  {
    hide Mcu.Receive, Quiet, Reliable, Genuine, Ordered, Progress, Compatible, Accepts, SameTag, Daemon.Negotiated;
    var f := w.d.wire[0];
    var m' := Mcu.Receive(p, w.m, Some(f), fx);
    assert f in w.d.wire && Outbound(p.crypto, w, f);
    SyncFrame(p, w.m, f, fx);
    if Quiet(w.m, m') {
      QuietSecret(w.m, m');
      LossKeeps(p.crypto, w, 0);
      assert Drop(w.d.wire, 0) == w.d.wire[1..];
      Fewer(p.crypto, w.(d := w.d.(wire := w.d.wire[1..])), m');
    } else {
      if Both(w) { AcceptedTag(p.crypto, w, f); }
      SyncKeeps(p.crypto, w, m');
    }
  }

  lemma QuietSecret(s: Mcu.State, s': Mcu.State)
    requires Quiet(s, s')
    ensures s'.secret == s.secret
  {
  }

  lemma OtherArrives(p: Mcu.Platform, w: Pair, fx: Mcu.Effects)
    requires Inv(p.crypto, w) && w.d.wire != [] && !IsSync(w.d.wire[0]) && OpsOk(fx.sends)
    ensures Inv(p.crypto, Step(p, w, ToMcu(fx))) && Step(p, w, ToMcu(fx)).m.secret == w.m.secret
  {
    hide Mcu.Receive, Quiet, Reliable, Genuine, Ordered, Progress, Compatible, Daemon.Negotiated, SyncOk;
    var f, rest := w.d.wire[0], w.d.wire[1..];
    var m' := Mcu.Receive(p, w.m, Some(f), fx);
    assert f in w.d.wire && Outbound(p.crypto, w, f);
    var popped := w.(d := w.d.(wire := rest));
    OtherFrame(p, w.m, f, fx);
    if Quiet(w.m, m') {
      QuietSecret(w.m, m');
      LossKeeps(p.crypto, w, 0);
      assert Drop(w.d.wire, 0) == rest;
      Fewer(p.crypto, popped, m');
    } else {
      QuietSecret(w.m.(rx := Counter(f)), m');
      OpenKeeps(p.crypto, w);
      Fewer(p.crypto, popped.(m := w.m.(rx := Counter(f))), m');
    }
  }

  lemma ToMcuKeeps(p: Mcu.Platform, w: Pair, fx: Mcu.Effects)
    requires Inv(p.crypto, w) && p.crypto.Correct() && OpsOk(fx.sends)
    ensures Inv(p.crypto, Step(p, w, ToMcu(fx))) && Step(p, w, ToMcu(fx)).m.secret == w.m.secret
  {
    hide Inv;
    if w.d.wire != [] {
      if IsSync(w.d.wire[0]) { SyncArrives(p, w, fx); } else { OtherArrives(p, w, fx); }
    }
  }

  // ---- Daemon steps ----

  // A step that at most writes one frame, never a LINK_SYNC, and does not enter a session.
  predicate Minor(d: Daemon.State, d': Daemon.State)
  {
    && d'.used == d.used && d'.secret == d.secret && d'.tx >= d.tx
    && (d'.link == Daemon.Synced ==> d.link == Daemon.Synced && d'.sessionKey == d.sessionKey)
    && (d'.phase.Idle? || (!d.phase.Idle? && d'.phase.nonce == d.phase.nonce))
    && (Unwritten(d'.phase) ==> Unwritten(d.phase))
  }

  // The steps of a running attempt that neither start it nor write its LINK_SYNC.
  lemma SyncDoneMinor(d: Daemon.State, ok: bool)
    requires Daemon.Negotiated(d) && d.phase.SendingSync?
    ensures Minor(d, Daemon.SyncDone(d, ok)) && Daemon.SyncDone(d, ok).wire == d.wire
  {
    hide Daemon.SetFsm, Daemon.Fail;
  }

  lemma ConfirmMinor(d: Daemon.State, expired: bool)
    requires Daemon.Negotiated(d) && d.phase.AwaitingConfirmation?
    ensures Minor(d, Daemon.Confirm(d, expired)) && Daemon.Confirm(d, expired).wire == d.wire
  {
    hide Daemon.SetFsm, Daemon.Fail;
  }

  lemma AttemptMinor(c: Crypto, d: Daemon.State, e: Daemon.Event)
    requires Daemon.Negotiated(d) && (e.ResetSent? || e.Stabilised? || e.SyncSent? || e.WaitOver? || e.Cancelled?)
    ensures Minor(d, Daemon.Step(c, d, e)) && Daemon.Step(c, d, e).wire == d.wire
  {
    hide Daemon.SetFsm, Daemon.Fail, Daemon.SyncDone, Daemon.Confirm;
    if d.phase.SendingSync? && e.SyncSent? { SyncDoneMinor(d, e.ok); }
    if d.phase.AwaitingConfirmation? && e.WaitOver? { ConfirmMinor(d, e.expired); }
  }

  lemma OutsideMinor(c: Crypto, d: Daemon.State, e: Daemon.Event)
    requires Daemon.Negotiated(d) && (e.GiveUp? || e.Rejection? || e.PortOpened? || e.PortLost?)
    ensures Minor(d, Daemon.Step(c, d, e)) && Daemon.Step(c, d, e).wire == d.wire
  {
    hide Daemon.SetFsm, Daemon.Fail;
  }

  lemma ZeroCounter(f: Envelope)
    requires f.nonce == seq(NONCE_SIZE, _ => 0 as Byte)
    ensures !IsSealed(f)
  {
    Nonce.ValueOfZeros(f.nonce[4..12]);
  }

  predicate PlainOther(f: Envelope) { !IsSync(f) && !IsSealed(f) && |f.nonce| == NONCE_SIZE }

  lemma AppendOrdered(live: Bytes, wire: seq<Envelope>, f: Envelope)
    requires Ordered(live, wire) && forall g :: g in wire ==> Before(live, g, f)
    ensures Ordered(live, wire + [f])
  {
    hide Before;
    forall i, j | 0 <= i < j < |wire + [f]| ensures Before(live, (wire + [f])[i], (wire + [f])[j]) {
      assert (wire + [f])[i] == wire[i] && wire[i] in wire;
    }
  }

  // A minor step keeps the invariant, whatever admissible frame it writes.
  lemma MinorKeeps(c: Crypto, w: Pair, d: Daemon.State, written: seq<Envelope>)
    requires Inv(c, w) && Minor(w.d, d) && Daemon.Negotiated(d)
    requires d.wire == w.d.wire + written && |written| <= 1 && forall f :: f in written ==> PlainOther(f)
    ensures Inv(c, w.(d := d))
  {
    hide Genuine, SyncOk, Counter, Reliable, Daemon.Negotiated, Answers;
    if written != [] {
      assert written == [written[0]] && PlainOther(written[0]);
      AppendOrdered(Live(d.used), w.d.wire, written[0]);
    }
  }

  lemma StartKeeps(c: Crypto, w: Pair, nonce: Bytes)
    requires Inv(c, w) && nonce !in w.d.used && w.d.phase.Idle? && |nonce| == HANDSHAKE_NONCE_LENGTH
    ensures Inv(c, w.(d := Daemon.BeginAttempt(c, w.d, nonce)))
  {
    hide Genuine, Counter, Reliable, Daemon.SetFsm, Daemon.HandshakeTag;
    forall f | f in w.d.wire ensures !Asks(f, nonce) {
      assert Outbound(c, w, f);
    }
    forall f | f in w.m.wire ensures !Answers(f, nonce) {
      assert Inbound(c, w, f);
    }
  }

  lemma WriteSyncKeeps(c: Crypto, w: Pair, seqId: int)
    requires Inv(c, w) && w.d.phase.SendingSync? && !w.d.phase.written
    ensures Inv(c, w.(d := Daemon.WriteSync(c, w.d, seqId)))
  {
    hide Genuine, Reliable, Counter;
    var live := Live(w.d.used);
    var f := Envelope(CMD_LINK_SYNC, seqId, seq(NONCE_SIZE, _ => 0), Sync(live, Daemon.HandshakeTag(c, w.d.secret, live)));
    ZeroCounter(f);
    AppendOrdered(live, w.d.wire, f);
    assert Daemon.WriteSync(c, w.d, seqId).wire == w.d.wire + [f];
  }

  // What the daemon writes once it has sealed a frame.
  lemma SealedFrame(c: Crypto, d: Daemon.State, cmd: int, seqId: int, text: Bytes, random: Bytes, f: Envelope)
    requires |random| == 4 && !IsSystem(cmd) && d.tx < U64 - 1 && d.sessionKey.Some?
    requires var nonce := Nonce.Generate(d.tx, random).value.0;
             var ct := c.seal(d.sessionKey.value, nonce, cmd, seqId, text);
             ct.Some? && f == Envelope(cmd, seqId, nonce, Blob(ct.value))
    ensures Genuine(c, d.sessionKey.value, f) && Counter(f) == d.tx + 1 && |f.nonce| == NONCE_SIZE && !IsSync(f)
  {
    Nonce.GenerateExtract(d.tx, random);
    assert f.nonce[4..] == f.nonce[4..12];
  }

  lemma SealKeeps(c: Crypto, w: Pair, d: Daemon.State, f: Envelope)
    requires Inv(c, w) && w.d.link == Daemon.Synced && w.d.sessionKey.Some? && Daemon.Negotiated(d)
    requires d == w.d.(tx := w.d.tx + 1, sealed := d.sealed, wire := w.d.wire + [f])
    requires Genuine(c, w.d.sessionKey.value, f) && Counter(f) == w.d.tx + 1 && |f.nonce| == NONCE_SIZE && !IsSync(f)
    ensures Inv(c, w.(d := d))
  {
    hide Genuine, Counter, SyncOk, Reliable, Daemon.Negotiated;
    AppendOrdered(Live(w.d.used), w.d.wire, f);
  }

  lemma SendKeeps(c: Crypto, w: Pair, cmd: int, seqId: int, body: Body, text: Bytes, random: Bytes)
    requires Inv(c, w) && c.Correct() && |random| == 4 && cmd != CMD_LINK_SYNC
    ensures Inv(c, w.(d := Daemon.SendRaw(c, w.d, cmd, seqId, body, text, random)))
  {
    hide Genuine, Ordered, Counter, Outbound, Inbound, Nonce.Generate;
    assert Parties(w) && Progress(c, w);
    var d := Daemon.SendRaw(c, w.d, cmd, seqId, body, text, random);
    Daemon.SendCounts(c, w.d, cmd, seqId, body, text, random);
    var plain := Envelope(cmd, seqId, seq(NONCE_SIZE, _ => 0), body);
    ZeroCounter(plain);
    Nonce.GenerateExtract(w.d.tx, random);
    if d.wire == w.d.wire {
      MinorKeeps(c, w, d, []);
    } else if w.d.link == Daemon.Synced && !IsSystem(cmd) {
      var f := d.wire[|d.wire| - 1];
      SealedFrame(c, w.d, cmd, seqId, text, random, f);
      SealKeeps(c, w, d, f);
    } else {
      MinorKeeps(c, w, d, [plain]);
    }
  }

  lemma DaemonStepKeeps(c: Crypto, w: Pair, e: Daemon.Event)
    requires Inv(c, w) && c.Correct() && Allowed(w, DaemonStep(e))
    ensures Inv(c, w.(d := Daemon.Step(c, w.d, e)))
  {
    hide Inv, Daemon.SendRaw, Daemon.BeginAttempt, Daemon.WriteSync;
    assert Daemon.Negotiated(w.d) by { InvParties(c, w); }
    match e
    case Start(nonce) =>
      if w.d.phase.Idle? && |nonce| == HANDSHAKE_NONCE_LENGTH { StartKeeps(c, w, nonce); }
    case SendSyncFrame(seqId) =>
      if w.d.phase.SendingSync? && !w.d.phase.written { WriteSyncKeeps(c, w, seqId); }
    case Send(cmd, seqId, body, text, random) =>
      if |random| == 4 && cmd != CMD_LINK_SYNC { SendKeeps(c, w, cmd, seqId, body, text, random); }
    case SendResetFrame(seqId, config) =>
      if w.d.phase.SendingReset? {
        var f := Envelope(CMD_LINK_RESET, seqId, seq(NONCE_SIZE, _ => 0), config);
        ZeroCounter(f);
        MinorKeeps(c, w, Daemon.WriteSystem(w.d, CMD_LINK_RESET, seqId, config), [f]);
      }
    case _ =>
      MinorEvent(c, w, e);
  }

  lemma InvParties(c: Crypto, w: Pair)
    requires Inv(c, w)
    ensures Parties(w) && Progress(c, w)
  {
  }

  lemma MinorEvent(c: Crypto, w: Pair, e: Daemon.Event)
    requires Inv(c, w) && !Daemon.Traffic(e) && !e.Response? && !e.Start? && !e.SendSyncFrame? && !e.SendResetFrame?
    ensures Inv(c, w.(d := Daemon.Step(c, w.d, e)))
  {
    hide Inv, Daemon.Step, Minor, Daemon.Negotiated;
    InvParties(c, w);
    Daemon.StepNegotiated(c, w.d, e);
    if e.GiveUp? || e.Rejection? || e.PortOpened? || e.PortLost? {
      OutsideMinor(c, w.d, e);
    } else {
      AttemptMinor(c, w.d, e);
    }
    MinorKeeps(c, w, Daemon.Step(c, w.d, e), []);
  }

  // The daemon hears a frame: it either only counts it, or takes the session of its newest
  // nonce, whose reply that frame is.
  lemma HearCases(c: Crypto, d: Daemon.State, f: Envelope, throttled: bool)
    requires Daemon.Negotiated(d)
    ensures var d' := Hear(c, d, f, throttled);
            && Daemon.Negotiated(d') && d'.wire == d.wire && d'.used == d.used && d'.secret == d.secret && d'.tx == d.tx
            && d'.phase == d.phase
            && ((d'.link == d.link && d'.sessionKey == d.sessionKey)
                || (d'.link == Daemon.Synced && Answers(f, Live(d.used))
                    && d.secret != [] && f.body.tag == c.tag(d.secret, Live(d.used))
                    && d'.sessionKey == Some(c.sessionKey(d.secret, Live(d.used)))))
  {
    hide Daemon.ProcessPacket;
    Daemon.PacketCounts(c, d, f);
    var d1 := Daemon.ProcessPacket(c, d, f).0;
    Daemon.StepNegotiated(c, d1, Daemon.Response(SyncFields(f.body), throttled));
  }

  lemma HearKeeps(c: Crypto, w: Pair, f: Envelope, throttled: bool)
    requires Inv(c, w) && f in w.m.wire && c.Correct()
    ensures Inv(c, w.(d := Hear(c, w.d, f, throttled))) && Hear(c, w.d, f, throttled).secret == w.d.secret
  {
    hide Hear, Genuine, Ordered, Daemon.Negotiated, SyncOk, Counter, Reliable;
    HearCases(c, w.d, f, throttled);
  }

  lemma StepKeeps(p: Mcu.Platform, w: Pair, e: Event)
    requires Inv(p.crypto, w) && Allowed(w, e) && p.crypto.Correct()
    ensures var w' := Step(p, w, e); Inv(p.crypto, w') && w'.d.secret == w.d.secret && w'.m.secret == w.m.secret
  {
    hide Inv;
    match e
    case DaemonStep(e) =>
      DaemonStepKeeps(p.crypto, w, e);
      Daemon.StepFloor(p.crypto, w.d, e);
    case McuStep(i) => McuStepKeeps(p, w, i);
    case ToMcu(fx) => ToMcuKeeps(p, w, fx);
    case LoseToMcu(k) => LossKeeps(p.crypto, w, k);
    case LoseToDaemon(k) => ReplyLost(p.crypto, w, k);
    case ToDaemon(k, keep, throttled) =>
      if k < |w.m.wire| {
        var w' := w.(d := Hear(p.crypto, w.d, w.m.wire[k], throttled));
        HearKeeps(p.crypto, w, w.m.wire[k], throttled);
        ReplyLost(p.crypto, w', k);
      }
  }

  lemma ReplyLost(c: Crypto, w: Pair, k: nat)
    requires Inv(c, w)
    ensures Inv(c, w.(m := w.m.(wire := Drop(w.m.wire, k))))
  {
    hide Progress, Ordered, Outbound, Drop, Daemon.Negotiated;
    DropIn(w.m.wire, k);
    Fewer(c, w, w.m.(wire := Drop(w.m.wire, k)));
  }

  lemma {:induction false} RunKeeps(p: Mcu.Platform, ds: Bytes, ms: Bytes, threshold: nat, ok: bool, events: seq<Event>)
    requires p.crypto.Correct() && Legal(p, Initial(ds, ms, threshold, ok), events)
    ensures var w := Run(p, Initial(ds, ms, threshold, ok), events);
            Inv(p.crypto, w) && w.d.secret == ds && w.m.secret == Take(ms, 64)
  {
    var w := Initial(ds, ms, threshold, ok);
    if events != [] {
      hide Inv, Step, Allowed;
      var front := events[..|events| - 1];
      RunKeeps(p, ds, ms, threshold, ok, front);
      StepKeeps(p, Run(p, w, front), events[|events| - 1]);
    }
  }

  // ---- The theorems ----

  // Agreement, for any two secrets. However many attempts failed, timed out or were repeated,
  // and whatever the channels did: while the daemon holds the link synchronised, both ends have
  // derived their keys from the newest nonce, to which both secrets give the same tag, and no
  // LINK_SYNC is under way. With one secret of at most 64 bytes the keys are therefore equal.
  lemma Agreement(p: Mcu.Platform, ds: Bytes, ms: Bytes, threshold: nat, ok: bool, events: seq<Event>)
    requires p.crypto.Correct() && Legal(p, Initial(ds, ms, threshold, ok), events)
    ensures var w := Run(p, Initial(ds, ms, threshold, ok), events);
            w.d.link == Daemon.Synced ==>
              var n := Live(w.d.used);
              && w.d.fsm == Daemon.Synchronized && NoSync(w.d.wire) && |n| == HANDSHAKE_NONCE_LENGTH
              && ds != [] && ms != [] && p.crypto.tag(ds, n) == p.crypto.tag(Take(ms, 64), n)
              && w.d.sessionKey == Some(p.crypto.sessionKey(ds, n)) && w.m.key == p.crypto.sessionKey(Take(ms, 64), n)
              && (ds == Take(ms, 64) || Compatible(p.crypto, ds, Take(ms, 64)) ==> w.d.sessionKey == Some(w.m.key))
  {
    hide Step, Run, Legal;
    RunKeeps(p, ds, ms, threshold, ok, events);
  }

  // No false reject. Whenever the next frame to reach a synchronised firmware is one the daemon
  // encrypted, it is opened to the text that was sealed, its counter is taken, and it is dispatched.
  lemma NoFalseReject(p: Mcu.Platform, ds: Bytes, ms: Bytes, threshold: nat, ok: bool, events: seq<Event>, fx: Mcu.Effects)
    requires p.crypto.Correct() && Legal(p, Initial(ds, ms, threshold, ok), events)
    requires Compatible(p.crypto, ds, Take(ms, 64))
    ensures var w := Run(p, Initial(ds, ms, threshold, ok), events);
            w.d.wire != [] && IsSealed(w.d.wire[0]) && Fsm.IsSynchronized(w.m.fsm) ==>
              var f := w.d.wire[0];
              exists text: Bytes ::
                && Some(Cipher(f)) == p.crypto.seal(w.m.key, f.nonce, f.cmd, f.seqId, text)
                && Mcu.Receive(p, w.m, Some(f), fx) ==
                     Mcu.Dispatch(p, Mcu.Log(w.m.(rx := Counter(f)), Mcu.Opened(Counter(f))), f.(body := Blob(text)), fx)
  {
    hide Step, Run, Legal, Mcu.Dispatch, Mcu.EmitStatus, Ordered, Progress, Daemon.Negotiated;
    RunKeeps(p, ds, ms, threshold, ok, events);
    var w := Run(p, Initial(ds, ms, threshold, ok), events);
    if w.d.wire != [] && IsSealed(w.d.wire[0]) && Fsm.IsSynchronized(w.m.fsm) {
      var f := w.d.wire[0];
      assert f in w.d.wire && Outbound(p.crypto, w, f);
      assert Mcu.NonceField(f) == f.nonce;
      var text: Bytes :| p.crypto.seal(w.m.key, f.nonce, f.cmd, f.seqId, text) == Some(f.body.data);
    }
  }
}
