// Exactly when the ends can synchronise, exactly when they then agree, and what becomes of the
// first frame the firmware seals in a session.
module LinkExact {
  import opened BigEndian
  import opened Wrappers
  import opened Protocol
  import opened Crypto
  import opened Frames
  import opened Link
  import opened LinkProgress
  import McuRetry
  import Nonce
  import Daemon
  import Mcu
  import Fsm = McuFsm

  // ---- Two secrets ----

  // The run from a fresh start in which one attempt is delivered whole.
  const QUIET := Mcu.Effects(true, false, [])

  function Attempt(nonce: Bytes): seq<Event> { Undisturbed(nonce, 1, 2, Empty, QUIET) }

  // An event that is allowed in every state.
  predicate Harmless(e: Event)
  {
    match e
    case DaemonStep(e) => !e.Response? && !e.Packet? && !e.Start?
    case McuStep(i) => !i.Restart? && (i.Incoming? ==> i.frame.None?) && (i.App? ==> McuRetry.OpOk(i.op))
    case ToMcu(fx) => McuRetry.OpsOk(fx.sends)
    case _ => true
  }

  lemma {:induction false} HarmlessLegal(p: Mcu.Platform, w: Pair, es: seq<Event>)
    requires es != [] && Allowed(w, es[0]) && forall i :: 1 <= i < |es| ==> Harmless(es[i])
    ensures Legal(p, w, es)
    decreases |es|
  {
    hide Step;
    if |es| > 1 {
      HarmlessLegal(p, w, es[..|es| - 1]);
    } else {
      assert es[..0] == [];
    }
  }

  lemma AttemptLegal(p: Mcu.Platform, w: Pair, nonce: Bytes)
    requires nonce !in w.d.used
    ensures Legal(p, w, Attempt(nonce))
  {
    hide Step, Legal;
    HarmlessLegal(p, w, Attempt(nonce));
  }

  lemma FreshStart(p: Mcu.Platform, ds: Bytes, ms: Bytes, threshold: nat, ok: bool)
    requires p.crypto.Correct()
    ensures var w := Initial(ds, ms, threshold, ok);
            && Parties(w) && Resting(w) && w.d.used == [] && w.m.history == [] && w.d.last == 0
            && w.d.secret == ds && w.m.secret == Take(ms, 64)
  {
    RunKeeps(p, ds, ms, threshold, ok, []);
  }

  // A fresh pair synchronises in one delivered attempt if the secrets agree on its tag.
  lemma AttemptJoins(p: Mcu.Platform, ds: Bytes, ms: Bytes, threshold: nat, ok: bool, n: Bytes)
    requires p.crypto.Correct() && ds != [] && ms != [] && |n| == HANDSHAKE_NONCE_LENGTH
    requires p.crypto.tag(ds, n) == p.crypto.tag(Take(ms, 64), n)
    ensures var w0 := Initial(ds, ms, threshold, ok);
            var w := Run(p, w0, Attempt(n));
            && Legal(p, w0, Attempt(n)) && w.d.link == Daemon.Synced
            && w.d.sessionKey == Some(p.crypto.sessionKey(ds, n)) && w.m.key == p.crypto.sessionKey(Take(ms, 64), n)
  {
    hide Run, Legal, Undisturbed, Parties;
    FreshStart(p, ds, ms, threshold, ok);
    var w0 := Initial(ds, ms, threshold, ok);
    AttemptLegal(p, w0, n);
    assert Seen(p, [], 1) == [1];
    UndisturbedOutcome(p, w0, n, 1, 2, Empty, QUIET);
  }

  ghost predicate CanSynchronise(p: Mcu.Platform, ds: Bytes, ms: Bytes, threshold: nat, ok: bool)
  {
    exists events ::
      Legal(p, Initial(ds, ms, threshold, ok), events) && Run(p, Initial(ds, ms, threshold, ok), events).d.link == Daemon.Synced
  }

  // A daemon and a firmware can synchronise exactly if both have a secret and the two give some
  // nonce the same tag. A secret longer than 64 bytes is cut by the firmware only, so it works
  // exactly as far as its first 64 bytes authenticate like the whole.
  lemma CanSynchroniseIff(p: Mcu.Platform, ds: Bytes, ms: Bytes, threshold: nat, ok: bool)
    requires p.crypto.Correct()
    ensures CanSynchronise(p, ds, ms, threshold, ok) <==>
              && ds != [] && ms != []
              && exists n: Bytes :: |n| == HANDSHAKE_NONCE_LENGTH && p.crypto.tag(ds, n) == p.crypto.tag(Take(ms, 64), n)
  {
    hide Run, Legal, Attempt;
    if CanSynchronise(p, ds, ms, threshold, ok) {
      var events :| Legal(p, Initial(ds, ms, threshold, ok), events)
                    && Run(p, Initial(ds, ms, threshold, ok), events).d.link == Daemon.Synced;
      Agreement(p, ds, ms, threshold, ok, events);
    }
    if ds != [] && ms != [] {
      if n: Bytes :| |n| == HANDSHAKE_NONCE_LENGTH && p.crypto.tag(ds, n) == p.crypto.tag(Take(ms, 64), n) {
        AttemptJoins(p, ds, ms, threshold, ok, n);
      }
    }
  }

  // No run ever leaves a synchronised daemon with a key that is not the firmware's.
  ghost predicate AlwaysAgrees(p: Mcu.Platform, ds: Bytes, ms: Bytes, threshold: nat, ok: bool)
  {
    forall events ::
      var w := Run(p, Initial(ds, ms, threshold, ok), events);
      Legal(p, Initial(ds, ms, threshold, ok), events) && w.d.link == Daemon.Synced ==> w.d.sessionKey == Some(w.m.key)
  }

  // Agreement over all runs holds exactly if no nonce is given one tag and two keys.
  lemma AgreementIff(p: Mcu.Platform, ds: Bytes, ms: Bytes, threshold: nat, ok: bool)
    requires p.crypto.Correct()
    ensures AlwaysAgrees(p, ds, ms, threshold, ok) <==> ds == [] || ms == [] || Compatible(p.crypto, ds, Take(ms, 64))
  {
    hide Run, Legal, Attempt;
    var w0 := Initial(ds, ms, threshold, ok);
    if ds == [] || ms == [] || Compatible(p.crypto, ds, Take(ms, 64)) {
      forall events | Legal(p, w0, events)
        ensures Run(p, w0, events).d.link == Daemon.Synced ==> Run(p, w0, events).d.sessionKey == Some(Run(p, w0, events).m.key)
      {
        Agreement(p, ds, ms, threshold, ok, events);
      }
    } else {
      var n: Bytes :| |n| == HANDSHAKE_NONCE_LENGTH && p.crypto.tag(ds, n) == p.crypto.tag(Take(ms, 64), n)
                      && p.crypto.sessionKey(ds, n) != p.crypto.sessionKey(Take(ms, 64), n);
      AttemptJoins(p, ds, ms, threshold, ok, n);
    }
  }

  // ---- The first frame of a session, on its way back ----

  // What the firmware seals first after a sync.
  lemma FirstSealed(p: Mcu.Platform, s: Mcu.State, cmd: int, seqId: int, body: Body, text: Bytes)
    requires s.Secured() && s.tx == 0 && s.wire == [] && !IsSystem(cmd) && !RequiresAck(cmd) && |text| <= MAX_PAYLOAD
    requires p.crypto.seal(s.key, Nonce.Firmware(1), cmd, seqId, text).Some?
    ensures var ct := p.crypto.seal(s.key, Nonce.Firmware(1), cmd, seqId, text).value;
            Mcu.Apply(p, s, Mcu.Packet(cmd, seqId, body, Some(text))).wire ==
              [Envelope(cmd, seqId, Nonce.Firmware(1), Blob(ct))]
  {
    assert Take(text, MAX_PAYLOAD) == text;
  }

  // The daemon takes counter 1 exactly if it has accepted nothing yet.
  lemma FirstHeard(c: Crypto, d: Daemon.State, f: Envelope)
    requires f.nonce == Nonce.Firmware(1) && d.link == Daemon.Synced && d.sessionKey.Some? && d.sessionKey.value != []
    requires !IsSystem(f.cmd) && Daemon.Authentic(c, d, f)
    ensures Hear(c, d, f, false) == if d.last == 0 then d.(last := 1, accepted := d.accepted + [1]) else d
  {
    Nonce.FirmwareExtract(1);
  }

  // From any pair at rest, after a delivered attempt the first frame the firmware seals carries
  // counter 1 and authenticates at the daemon, and is accepted exactly if the daemon has accepted
  // no frame in any earlier session. So every session but the first to carry traffic loses frames.
  lemma FirstFrameAcceptedIff(p: Mcu.Platform, w: Pair, nonce: Bytes, resetId: int, syncId: int, config: Body, fx: Mcu.Effects,
                              cmd: int, seqId: int, body: Body, text: Bytes)
    requires p.crypto.Correct() && Parties(w) && Resting(w) && Both(w) && |nonce| == HANDSHAKE_NONCE_LENGTH
    requires w.d.secret == w.m.secret && resetId !in w.m.history && syncId !in w.m.history && resetId != syncId
    requires !IsSystem(cmd) && !RequiresAck(cmd) && |text| <= MAX_PAYLOAD
    requires p.crypto.seal(p.crypto.sessionKey(w.d.secret, nonce), Nonce.Firmware(1), cmd, seqId, text).Some?
    ensures var w1 := Run(p, w, Undisturbed(nonce, resetId, syncId, config, fx));
            var w2 := Step(p, w1, McuStep(Mcu.App(Mcu.Packet(cmd, seqId, body, Some(text)))));
            var w3 := Step(p, w2, ToDaemon(0, false, false));
            && |w2.m.wire| == 1 && w2.m.wire[0].nonce == Nonce.Firmware(1) && Daemon.Authentic(p.crypto, w2.d, w2.m.wire[0])
            && w3.m.wire == []
            && w3.d == if w.d.last == 0 then w1.d.(last := 1, accepted := w1.d.accepted + [1]) else w1.d
  {
    hide Run, Undisturbed, Hear, Mcu.Apply, Parties;
    UndisturbedSucceeds(p, w, nonce, resetId, syncId, config, fx);
    var w1 := Run(p, w, Undisturbed(nonce, resetId, syncId, config, fx));
    FirstSealed(p, w1.m, cmd, seqId, body, text);
    var w2 := Step(p, w1, McuStep(Mcu.App(Mcu.Packet(cmd, seqId, body, Some(text)))));
    FirstHeard(p.crypto, w2.d, w2.m.wire[0]);
  }
}
