// From a send of the daemon to the handler of the firmware: the text that is dispatched is the
// text of the very event that sent it.
module LinkText {
  import opened BigEndian
  import opened Wrappers
  import opened Protocol
  import opened Crypto
  import opened Frames
  import opened Link
  import McuRetry
  import Nonce
  import Daemon
  import Mcu
  import Fsm = McuFsm

  // Event i is the send of frame f: the same command and id, and the counter that was next.
  predicate SentAt(p: Mcu.Platform, w: Pair, events: seq<Event>, i: nat, f: Envelope)
  {
    && i < |events| && events[i].DaemonStep? && events[i].e.Send?
    && events[i].e.cmd == f.cmd && events[i].e.seqId == f.seqId
    && Counter(f) == Run(p, w, events[..i]).d.tx + 1
  }

  predicate OpensTo(c: Crypto, key: Bytes, f: Envelope, text: Bytes)
  {
    c.open(key, f.nonce, f.cmd, f.seqId, Cipher(f)) == Some(text)
  }

  ghost predicate Traced(p: Mcu.Platform, w: Pair, events: seq<Event>, key: Bytes, f: Envelope)
  {
    exists i: nat :: SentAt(p, w, events, i, f) && OpensTo(p.crypto, key, f, events[i].e.text)
  }

  // ---- Where a sealed frame on the wire comes from ----

  lemma OtherWritesPlain(c: Crypto, d: Daemon.State, e: Daemon.Event)
    requires !Daemon.Traffic(e)
    ensures forall f :: f in Daemon.Step(c, d, e).wire ==> f in d.wire || !IsSealed(f)
  {
    hide Daemon.SetFsm, Daemon.Fail, Daemon.HandshakeTag, Daemon.SendRaw, Daemon.ProcessPacket, IsSealed, Counter;
    forall f: Envelope | f.nonce == seq(NONCE_SIZE, _ => 0 as Byte) ensures !IsSealed(f) { ZeroCounter(f); }
    match e
    case Start(nonce) =>
    case SendResetFrame(seqId, config) =>
    case ResetSent(ok) =>
    case Stabilised =>
    case SendSyncFrame(seqId) =>
    case SyncSent(ok) =>
    case WaitOver(expired) =>
    case GiveUp =>
    case Cancelled =>
    case Response(resp, throttled) =>
    case Rejection(tail) =>
    case PortOpened =>
    case PortLost =>
  }

  // The frame a send seals.
  lemma SendWrites(c: Crypto, w: Pair, cmd: int, seqId: int, body: Body, text: Bytes, random: Bytes)
    requires Inv(c, w) && c.Correct() && |random| == 4 && Compatible(c, w.d.secret, w.m.secret)
    ensures forall f :: f in Daemon.SendRaw(c, w.d, cmd, seqId, body, text, random).wire ==>
              || f in w.d.wire || !IsSealed(f)
              || (f.cmd == cmd && f.seqId == seqId && Counter(f) == w.d.tx + 1 && OpensTo(c, w.m.key, f, text))
  {
    hide Daemon.SendRaw, Inv, Compatible, IsSealed, Counter, Nonce.Extract;
    if w.d.link == Daemon.Synced { SharedKey(c, w); }
    var wire := Daemon.SendRaw(c, w.d, cmd, seqId, body, text, random).wire;
    Daemon.SendCarries(c, w.d, cmd, seqId, body, text, random);
    forall f: Envelope | f.nonce == seq(NONCE_SIZE, _ => 0 as Byte) ensures !IsSealed(f) { ZeroCounter(f); }
    if wire != w.d.wire {
      var f := wire[|w.d.wire|];
      assert wire == w.d.wire + [f];
      if w.d.link == Daemon.Synced && !IsSystem(cmd) { CounterIs(f, w.d.tx + 1); }
    }
  }

  lemma SharedKey(c: Crypto, w: Pair)
    requires Inv(c, w) && c.Correct() && Compatible(c, w.d.secret, w.m.secret) && w.d.link == Daemon.Synced
    ensures w.d.sessionKey == Some(w.m.key) && w.m.key != []
  {
    hide Ordered, Outbound, Inbound, Daemon.Negotiated;
  }

  lemma CounterIs(f: Envelope, n: nat)
    requires Nonce.Extract(f.nonce) == Some(n)
    ensures Counter(f) == n
  {
    assert f.nonce[4..] == f.nonce[4..12];
  }

  // Over one step a sealed frame on the wire was there before, with the firmware on the same key, or
  // is the one just sent.
  lemma StepTraces(p: Mcu.Platform, w: Pair, e: Event, f: Envelope)
    requires Inv(p.crypto, w) && p.crypto.Correct() && Allowed(w, e) && Compatible(p.crypto, w.d.secret, w.m.secret)
    requires f in Step(p, w, e).d.wire && IsSealed(f)
    ensures var w' := Step(p, w, e);
            || (f in w.d.wire && w'.m.key == w.m.key)
            || (e.DaemonStep? && e.e.Send? && e.e.cmd == f.cmd && e.e.seqId == f.seqId
                && Counter(f) == w.d.tx + 1 && OpensTo(p.crypto, w'.m.key, f, e.e.text))
  {
    hide Inv, Daemon.Step, Mcu.Step, Mcu.Receive, Hear, IsSealed, Compatible;
    match e
    case DaemonStep(de) =>
      if de.Send? {
        SendStep(p.crypto, w.d, de);
        if |de.random| == 4 { SendWrites(p.crypto, w, de.cmd, de.seqId, de.body, de.text, de.random); }
      } else {
        OtherWritesPlain(p.crypto, w.d, de);
      }
    case McuStep(i) => KeyStays(p, w, i);
    case ToMcu(fx) => if w.d.wire != [] { HeadTaken(p, w, fx, f); }
    case ToDaemon(k, keep, throttled) =>
      if k < |w.m.wire| { HearQuiet(p.crypto, w, w.m.wire[k], throttled); }
    case LoseToMcu(k) => DropIn(w.d.wire, k);
    case LoseToDaemon(k) =>
  }

  lemma SendStep(c: Crypto, d: Daemon.State, e: Daemon.Event)
    requires e.Send?
    ensures Daemon.Step(c, d, e) ==
              if |e.random| == 4 && e.cmd != CMD_LINK_SYNC
              then Daemon.SendRaw(c, d, e.cmd, e.seqId, e.body, e.text, e.random) else d
  {
    hide Daemon.SendRaw;
  }

  lemma KeyStays(p: Mcu.Platform, w: Pair, i: Mcu.Input)
    requires Inv(p.crypto, w) && Allowed(w, McuStep(i))
    ensures Mcu.Step(p, w.m, i).key == w.m.key
  {
    hide Mcu.EmitStatus, Mcu.Apply, Mcu.EnterSafeState, Mcu.AckTimeout, Ordered, Progress, Daemon.Negotiated;
    match i
    case Incoming(frame, fx) => McuRetry.EmitStatusCalm(p, w.m, STATUS_MALFORMED);
    case App(op) => McuRetry.ApplyCalm(p, w.m, op);
    case AckTimer => AckTimeoutQuiet(p, w.m);
    case HandshakeTimer =>
    case DedupeTimer =>
    case Unsafe => McuRetry.SafeStateCalm(w.m);
  }

  lemma HearQuiet(c: Crypto, w: Pair, f: Envelope, throttled: bool)
    requires Inv(c, w)
    ensures Hear(c, w.d, f, throttled).wire == w.d.wire
  {
    hide Hear, Ordered, Progress, Outbound, Inbound;
    HearCases(c, w.d, f, throttled);
  }

  lemma HeadTaken(p: Mcu.Platform, w: Pair, fx: Mcu.Effects, f: Envelope)
    requires Inv(p.crypto, w) && w.d.wire != [] && McuRetry.OpsOk(fx.sends)
    requires f in w.d.wire[1..] && IsSealed(f)
    ensures f in w.d.wire && Mcu.Receive(p, w.m, Some(w.d.wire[0]), fx).key == w.m.key
  {
    hide Mcu.Receive, IsSealed, Progress, Daemon.Negotiated, Genuine, SyncOk, Ordered;
    var g := w.d.wire[0];
    assert g in w.d.wire && Outbound(p.crypto, w, g);
    Behind(Live(w.d.used), w.d.wire);
    assert Before(Live(w.d.used), g, f);
    OtherFrame(p, w.m, g, fx);
  }

  // ---- Over runs ----

  lemma {:induction false} EveryFrameTraced(p: Mcu.Platform, ds: Bytes, ms: Bytes, threshold: nat, ok: bool, events: seq<Event>, f: Envelope)
    requires p.crypto.Correct() && Compatible(p.crypto, ds, Take(ms, 64))
    requires Legal(p, Initial(ds, ms, threshold, ok), events)
    requires f in Run(p, Initial(ds, ms, threshold, ok), events).d.wire && IsSealed(f)
    ensures var w0 := Initial(ds, ms, threshold, ok); Traced(p, w0, events, Run(p, w0, events).m.key, f)
    decreases |events|
  {
    var w0 := Initial(ds, ms, threshold, ok);
    if events != [] {
      hide Inv, Step, Allowed, Compatible, IsSealed, OpensTo;
      var front, e := events[..|events| - 1], events[|events| - 1];
      var w := Run(p, w0, front);
      RunKeeps(p, ds, ms, threshold, ok, front);
      StepTraces(p, w, e, f);
      if f in w.d.wire && Step(p, w, e).m.key == w.m.key {
        EveryFrameTraced(p, ds, ms, threshold, ok, front, f);
        var i: nat :| SentAt(p, w0, front, i, f) && OpensTo(p.crypto, w.m.key, f, front[i].e.text);
        assert front[..i] == events[..i] && front[i] == events[i];
        assert SentAt(p, w0, events, i, f);
      } else {
        assert SentAt(p, w0, events, |events| - 1, f);
      }
    }
  }

  // Whenever the next frame to reach a synchronised firmware is one the daemon encrypted, what the
  // firmware dispatches is the text of the send event with that counter: nothing is lost, changed
  // or exchanged between the two ends.
  lemma DispatchesWhatWasSent(p: Mcu.Platform, ds: Bytes, ms: Bytes, threshold: nat, ok: bool, events: seq<Event>, fx: Mcu.Effects)
    requires p.crypto.Correct() && Compatible(p.crypto, ds, Take(ms, 64))
    requires Legal(p, Initial(ds, ms, threshold, ok), events)
    ensures var w0 := Initial(ds, ms, threshold, ok);
            var w := Run(p, w0, events);
            w.d.wire != [] && IsSealed(w.d.wire[0]) && Fsm.IsSynchronized(w.m.fsm) ==>
              var f := w.d.wire[0];
              exists i: nat ::
                && SentAt(p, w0, events, i, f)
                && Mcu.Receive(p, w.m, Some(f), fx) ==
                     Mcu.Dispatch(p, Mcu.Log(w.m.(rx := Counter(f)), Mcu.Opened(Counter(f))),
                                  f.(body := Blob(events[i].e.text)), fx)
  {
    hide Run, Legal, Mcu.Dispatch, Mcu.Receive, IsSealed, Compatible;
    var w0 := Initial(ds, ms, threshold, ok);
    var w := Run(p, w0, events);
    if w.d.wire != [] && IsSealed(w.d.wire[0]) && Fsm.IsSynchronized(w.m.fsm) {
      var f := w.d.wire[0];
      NoFalseReject(p, ds, ms, threshold, ok, events, fx);
      EveryFrameTraced(p, ds, ms, threshold, ok, events, f);
      var i: nat :| SentAt(p, w0, events, i, f) && OpensTo(p.crypto, w.m.key, f, events[i].e.text);
      var text: Bytes :| Some(Cipher(f)) == p.crypto.seal(w.m.key, f.nonce, f.cmd, f.seqId, text)
                         && Mcu.Receive(p, w.m, Some(f), fx) ==
                              Mcu.Dispatch(p, Mcu.Log(w.m.(rx := Counter(f)), Mcu.Opened(Counter(f))), f.(body := Blob(text)), fx);
      assert text == events[i].e.text;
    }
  }
}
