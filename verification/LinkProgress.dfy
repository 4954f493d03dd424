// What an attempt comes to when every frame of it is delivered, from every pair at rest.
module LinkProgress {
  import opened BigEndian
  import opened Wrappers
  import opened Protocol
  import opened Crypto
  import opened Frames
  import opened Link
  import Nonce
  import Daemon
  import Mcu
  import McuRetry
  import Fsm = McuFsm

  function Frame(cmd: int, seqId: int, body: Body): Envelope
  {
    Envelope(cmd, seqId, seq(NONCE_SIZE, _ => 0), body)
  }

  // The attempt of one nonce, every frame delivered in order.
  function Undisturbed(nonce: Bytes, resetId: int, syncId: int, config: Body, fx: Mcu.Effects): seq<Event>
  {
    [DaemonStep(Daemon.Start(nonce)), DaemonStep(Daemon.SendResetFrame(resetId, config)), ToMcu(fx),
     DaemonStep(Daemon.ResetSent(true)), DaemonStep(Daemon.Stabilised), DaemonStep(Daemon.SendSyncFrame(syncId)),
     ToMcu(fx), ToDaemon(0, false, false), ToDaemon(0, false, false), ToDaemon(0, false, false), ToDaemon(0, false, false)]
  }

  lemma ResetIsListed()
    ensures Mcu.Lookup(Mcu.TABLE, CMD_LINK_RESET) == Some(Mcu.LinkReset)
  {
    var t := Mcu.TABLE;
    assert t[1..][1..][1..][1..][0] == t[4];
    assert Mcu.Lookup(t[1..][1..][1..][1..], CMD_LINK_RESET) == Some(Mcu.LinkReset);
    assert Mcu.Lookup(t[1..][1..][1..], CMD_LINK_RESET) == Some(Mcu.LinkReset);
    assert Mcu.Lookup(t[1..][1..], CMD_LINK_RESET) == Some(Mcu.LinkReset);
    assert Mcu.Lookup(t[1..], CMD_LINK_RESET) == Some(Mcu.LinkReset);
  }

  predicate Chatter(wire: seq<Envelope>) { forall f :: f in wire ==> IsSystem(f.cmd) && !IsReply(f) }

  // The state in which a system frame of a listed command meets its handler.
  function Noted(p: Mcu.Platform, s: Mcu.State, f: Envelope, dup: bool): Mcu.State
  {
    var s0 := Mcu.Log(s, Mcu.Arrived(f.seqId, dup));
    Mcu.Acknowledge(if dup then s0 else s0.(history := Mcu.Remember(p, s.history, f.seqId)), f.cmd, f.seqId)
  }

  // Acknowledged in any case, then handled if it is fresh and dropped if it is not.
  lemma Reaches(p: Mcu.Platform, s: Mcu.State, f: Envelope, k: Mcu.Kind, fx: Mcu.Effects)
    requires IsSystem(f.cmd) && f.cmd != STATUS_OK && f.cmd != STATUS_MALFORMED
    requires Mcu.Lookup(Mcu.TABLE, f.cmd) == Some(k) && (k.LinkSync? || k.LinkReset?)
    ensures var dup := f.seqId in s.history;
            Mcu.Receive(p, s, Some(f), fx) ==
              if dup then Noted(p, s, f, true) else Mcu.RunHandler(p, Noted(p, s, f, false), k, f, fx)
  {
    hide Mcu.Lookup, Mcu.RunHandler, Mcu.Retransmit, Mcu.SendFrame, Mcu.EmitStatus, Mcu.ApplyAll;
  }

  // What the history holds after a frame with this id.
  function Seen(p: Mcu.Platform, history: seq<int>, id: int): seq<int>
  {
    if id in history then history else Mcu.Remember(p, history, id)
  }

  // A LINK_RESET brings the firmware to Unsynchronized from any state, Fault included, exactly if
  // its id is fresh; it is acknowledged in any case.
  lemma ResetTaken(p: Mcu.Platform, s: Mcu.State, f: Envelope, fx: Mcu.Effects)
    requires f.cmd == CMD_LINK_RESET
    ensures var s' := Mcu.Receive(p, s, Some(f), fx);
            && s'.fsm == (if f.seqId in s.history then s.fsm else Fsm.Unsynchronized)
            && s'.secret == s.secret && s'.history == Seen(p, s.history, f.seqId)
            && |s.wire| < |s'.wire| <= |s.wire| + 2 && s'.wire[..|s.wire|] == s.wire && Chatter(s'.wire[|s.wire|..])
  {
    hide Mcu.Lookup, Mcu.Receive, Mcu.EmitStatus, Mcu.ApplyAll, Mcu.HandleAck, Mcu.HandleLinkSync, Mcu.HandleLinkReset;
    ResetIsListed();
    Reaches(p, s, f, Mcu.LinkReset, fx);
    ResetHandled(p, Mcu.Log(Noted(p, s, f, false), Mcu.Handled(f.cmd, f.seqId, true)), f);
  }

  lemma ResetHandled(p: Mcu.Platform, s: Mcu.State, f: Envelope)
    ensures var s' := Mcu.HandleLinkReset(p, s, f);
            && s'.fsm == Fsm.Unsynchronized && s'.secret == s.secret && s'.history == s.history
            && s'.retryLimit == (if Mcu.ConfigOf(p, f.body).Some? then Mcu.ConfigOf(p, f.body).value % 256 else s.retryLimit)
            && exists resp: Envelope :: resp.cmd == CMD_LINK_RESET_RESP && s'.wire == s.wire + [resp]
  {
    hide Mcu.Enqueue, Mcu.ConfigOf;
    var s' := Mcu.HandleLinkReset(p, s, f);
    assert s'.wire == s.wire + [s'.wire[|s.wire|]];
  }

  // Where the handshake events lead: anywhere but from Startup and Fault.
  function Shaken(f: Fsm.State): Fsm.State
  {
    Fsm.OnEvent(Fsm.OnEvent(f, Fsm.HandshakeStart), Fsm.HandshakeComplete)
  }

  // A LINK_SYNC is answered exactly if its id is fresh and its tag is the firmware's own; a fresh one
  // with another tag is refused and brings the firmware to Startup, from any state but Fault.
  lemma SyncTaken(p: Mcu.Platform, s: Mcu.State, f: Envelope, fx: Mcu.Effects)
    requires IsSync(f) && s.secret != [] && f.body.Sync? && |f.body.nonce| == HANDSHAKE_NONCE_LENGTH && f.body.tag != []
    ensures var s' := Mcu.Receive(p, s, Some(f), fx);
            && s'.secret == s.secret && |s.wire| < |s'.wire| <= |s.wire| + 2 && s'.wire[..|s.wire|] == s.wire
            && if f.seqId !in s.history && f.body.tag == p.crypto.tag(s.secret, f.body.nonce) then
                 && s'.fsm == Shaken(s.fsm) && s'.key == p.crypto.sessionKey(s.secret, f.body.nonce) && s'.tx == 0
                 && exists ack, reply :: s'.wire == s.wire + [ack, reply] && Chatter([ack])
                                         && IsReply(reply) && reply.body == Sync(f.body.nonce, f.body.tag)
               else
                 && Chatter(s'.wire[|s.wire|..]) && s'.key == s.key
                 && s'.fsm == if f.seqId in s.history || s.fsm == Fsm.Fault then s.fsm else Fsm.Startup
  {
    hide Mcu.Lookup, Mcu.Receive, Mcu.EmitStatus, Mcu.ApplyAll, Mcu.HandleAck, Mcu.HandleLinkReset, Mcu.HandleLinkSync;
    SyncIsListed();
    Reaches(p, s, f, Mcu.LinkSync, fx);
    var s1 := Mcu.Log(Noted(p, s, f, false), Mcu.Handled(f.cmd, f.seqId, true));
    SyncHandled(p, s1, f.seqId, f.body.nonce, f.body.tag);
    var s' := Mcu.Receive(p, s, Some(f), fx);
    if f.seqId !in s.history {
      var ack, reply := s'.wire[|s.wire|], s'.wire[|s.wire| + 1];
      assert s'.wire == s.wire + [ack, reply];
    }
  }

  lemma SyncHandled(p: Mcu.Platform, s: Mcu.State, seqId: int, nonce: Bytes, tag: Bytes)
    requires s.secret != [] && |nonce| == HANDSHAKE_NONCE_LENGTH && tag != []
    ensures var s' := Mcu.HandleLinkSync(p, s, seqId, nonce, tag);
            s'.secret == s.secret &&
            if tag == p.crypto.tag(s.secret, nonce) then
              && s'.fsm == Shaken(s.fsm) && s'.key == p.crypto.sessionKey(s.secret, nonce) && s'.tx == 0
              && s'.wire == s.wire + [Envelope(CMD_LINK_SYNC_RESP, seqId, [], Sync(nonce, tag))]
            else
              && s'.key == s.key && s'.fsm == (if s.fsm == Fsm.Fault then Fsm.Fault else Fsm.Startup)
              && exists f: Envelope :: f.cmd == STATUS_ERROR && s'.wire == s.wire + [f]
  {
    hide Mcu.Enqueue;
    assert Take(nonce, HANDSHAKE_NONCE_LENGTH) == nonce;
    var s' := Mcu.HandleLinkSync(p, s, seqId, nonce, tag);
    if tag != p.crypto.tag(s.secret, nonce) {
      assert s'.wire == s.wire + [s'.wire[|s.wire|]];
    }
  }

  // Without a secret any LINK_SYNC is accepted and answered with an empty tag, and no key is taken.
  lemma SyncWithoutSecret(p: Mcu.Platform, s: Mcu.State, seqId: int, nonce: Bytes, tag: Bytes)
    requires s.secret == [] && |nonce| == HANDSHAKE_NONCE_LENGTH
    ensures var s' := Mcu.HandleLinkSync(p, s, seqId, nonce, tag);
            && s'.fsm == Shaken(s.fsm) && s'.key == s.key && s'.tx == s.tx && s'.rx == s.rx
            && s'.wire == s.wire + [Envelope(CMD_LINK_SYNC_RESP, seqId, [], Sync(nonce, []))]
  {
    assert Take(nonce, HANDSHAKE_NONCE_LENGTH) == nonce;
  }

  // At rest: no attempt runs and nothing is in flight.
  predicate Resting(w: Pair) { w.d.phase.Idle? && w.d.wire == [] && w.m.wire == [] }

  // The firmware's state once the LINK_RESET has arrived.
  function AfterReset(w: Pair, resetId: int): Fsm.State
  {
    if resetId in w.m.history then w.m.fsm else Fsm.Unsynchronized
  }

  // Up to the firmware's replies.
  lemma Asking(p: Mcu.Platform, w: Pair, nonce: Bytes, resetId: int, syncId: int, config: Body, fx: Mcu.Effects)
    requires Parties(w) && Resting(w) && Both(w) && |nonce| == HANDSHAKE_NONCE_LENGTH
    ensures var w2 := Step(p, Step(p, w, DaemonStep(Daemon.Start(nonce))), DaemonStep(Daemon.SendResetFrame(resetId, config)));
            var w3 := Step(p, w2, ToMcu(fx));
            var w5 := Step(p, Step(p, w3, DaemonStep(Daemon.ResetSent(true))), DaemonStep(Daemon.Stabilised));
            var w6 := Step(p, w5, DaemonStep(Daemon.SendSyncFrame(syncId)));
            && w6.d.wire == [Frame(CMD_LINK_SYNC, syncId, Sync(nonce, p.crypto.tag(w.d.secret, nonce)))]
            && w6.d.secret == w.d.secret && w6.m.secret == w.m.secret && w6.d.pending == Some(nonce) && w6.d.expectedTag.Some?
            && w6.d.fsm == Daemon.Syncing && w6.d.link != Daemon.Synced
            && w6.d.successes == w.d.successes && w6.d.last == w.d.last
            && w6.m.fsm == AfterReset(w, resetId) && w6.m.history == Seen(p, w.m.history, resetId)
            && |w6.m.wire| <= 2 && Chatter(w6.m.wire)
  {
    hide Mcu.Receive, Daemon.SendRaw, Daemon.ProcessPacket, Daemon.OnSyncResp, Daemon.SetFsm, Daemon.Fail;
    ResetTaken(p, w.m, Frame(CMD_LINK_RESET, resetId, config), fx);
    var w1 := Step(p, w, DaemonStep(Daemon.Start(nonce)));
    assert w1.d.phase == Daemon.SendingReset(nonce);
    var w2 := Step(p, w1, DaemonStep(Daemon.SendResetFrame(resetId, config)));
    assert w2.d.wire == [Frame(CMD_LINK_RESET, resetId, config)];
    var w3 := Step(p, w2, ToMcu(fx));
    assert w3.m.wire[|w.m.wire|..] == w3.m.wire;
  }

  // Frames other than the reply change nothing at the daemon's end of the handshake.
  lemma HearChatter(c: Crypto, d: Daemon.State, f: Envelope)
    requires IsSystem(f.cmd) && !IsReply(f)
    ensures Hear(c, d, f, false) == d
  {
  }

  lemma HearReply(c: Crypto, d: Daemon.State, f: Envelope)
    requires IsReply(f) && c.Correct() && d.secret != [] && d.expectedTag.Some? && d.fsm == Daemon.Syncing
    requires f.body.Sync? && d.pending == Some(f.body.nonce) && f.body.tag == c.tag(d.secret, f.body.nonce)
    ensures var d' := Hear(c, d, f, false);
            && d'.link == Daemon.Synced && d'.sessionKey == Some(c.sessionKey(d.secret, f.body.nonce))
            && d'.successes == d.successes + 1 && d'.wire == d.wire && d'.last == d.last && d'.accepted == d.accepted
  {
  }

  // Chatter and at most one reply behind it.
  predicate Line(wire: seq<Envelope>, chat: seq<Envelope>, reply: seq<Envelope>)
  {
    wire == chat + reply && Chatter(chat) && |reply| <= 1
  }

  // What hearing the whole line does.
  function Heard(c: Crypto, d: Daemon.State, reply: seq<Envelope>): Daemon.State
  {
    if reply == [] then d else Hear(c, d, reply[0], false)
  }

  // Delivering n times empties a line of at most n frames, whatever their number.
  lemma {:induction false} Draining(p: Mcu.Platform, w: Pair, chat: seq<Envelope>, reply: seq<Envelope>, n: nat)
    requires Line(w.m.wire, chat, reply) && |w.m.wire| <= n
    ensures Drained(p, w, n) == Pair(Heard(p.crypto, w.d, reply), w.m.(wire := []))
    decreases n
  {
    hide Hear;
    if chat != [] {
      HearChatter(p.crypto, w.d, chat[0]);
      assert Drop(w.m.wire, 0) == chat[1..] + reply;
      Draining(p, w.(m := w.m.(wire := chat[1..] + reply)), chat[1..], reply, n - 1);
    } else if reply != [] {
      assert Drop(w.m.wire, 0) == [] == [] + [];
      Draining(p, Pair(Hear(p.crypto, w.d, reply[0], false), w.m.(wire := [])), [], [], n - 1);
    } else if n > 0 {
      Draining(p, w, [], [], n - 1);
    }
  }

  function Drained(p: Mcu.Platform, w: Pair, n: nat): Pair
    decreases n
  {
    if n == 0 then w else Drained(p, Step(p, w, ToDaemon(0, false, false)), n - 1)
  }

  lemma FourTimes(p: Mcu.Platform, w: Pair)
    ensures var next := ToDaemon(0, false, false);
            Drained(p, w, 4) == Step(p, Step(p, Step(p, Step(p, w, next), next), next), next)
  {
    hide Step;
    var next := ToDaemon(0, false, false);
    var w1 := Step(p, w, next);
    var w2 := Step(p, w1, next);
    assert Drained(p, w, 4) == Drained(p, w1, 3) == Drained(p, w2, 2) == Drained(p, Step(p, w2, next), 1);
  }

  // The attempt reaches the firmware's handler and is accepted there.
  predicate Welcome(p: Mcu.Platform, w: Pair, nonce: Bytes, resetId: int, syncId: int)
  {
    syncId !in Seen(p, w.m.history, resetId) && SameTag(p.crypto, w, nonce)
  }

  // A daemon that has just written its LINK_SYNC, with only chatter on the way back.
  predicate AsksOnly(c: Crypto, w: Pair, nonce: Bytes, syncId: int)
  {
    && w.d.wire == [Frame(CMD_LINK_SYNC, syncId, Sync(nonce, c.tag(w.d.secret, nonce)))]
    && w.d.pending == Some(nonce) && w.d.expectedTag.Some? && w.d.fsm == Daemon.Syncing && w.d.link != Daemon.Synced
    && |w.m.wire| <= 2 && Chatter(w.m.wire) && |nonce| == HANDSHAKE_NONCE_LENGTH
  }

  lemma Answering(p: Mcu.Platform, w: Pair, nonce: Bytes, syncId: int, fx: Mcu.Effects)
    requires p.crypto.Correct() && Both(w) && AsksOnly(p.crypto, w, nonce, syncId)
    ensures var w' := Drained(p, Step(p, w, ToMcu(fx)), 4);
            && w'.d.wire == [] && w'.m.wire == [] && w'.d.last == w.d.last
            && (w'.d.link == Daemon.Synced <==> syncId !in w.m.history && SameTag(p.crypto, w, nonce))
            && (syncId !in w.m.history && SameTag(p.crypto, w, nonce) ==>
                  && w'.d.sessionKey == Some(p.crypto.sessionKey(w.d.secret, nonce))
                  && w'.m.key == p.crypto.sessionKey(w.m.secret, nonce)
                  && w'.d.successes == w.d.successes + 1 && w'.m.secret == w.m.secret && w'.m.tx == 0
                  && w'.m.fsm == Shaken(w.m.fsm))
  {
    hide Step, Chatter, Mcu.Receive, Hear, Drained, Shaken;
    var f := w.d.wire[0];
    Taking(p, w, fx);
    SyncTaken(p, w.m, f, fx);
    var w1 := Step(p, w, ToMcu(fx));
    if syncId !in w.m.history && SameTag(p.crypto, w, nonce) {
      var ack, reply :| w1.m.wire == w.m.wire + [ack, reply] && Chatter([ack])
                        && IsReply(reply) && reply.body == Sync(f.body.nonce, f.body.tag);
      ChatterConcat(w.m.wire, [ack]);
      assert w1.m.wire == w.m.wire + [ack] + [reply];
      Draining(p, w1, w.m.wire + [ack], [reply], 4);
      HearReply(p.crypto, w1.d, reply);
    } else {
      var rest := w1.m.wire[|w.m.wire|..];
      ChatterConcat(w.m.wire, rest);
      assert w1.m.wire == w.m.wire + rest;
      Draining(p, w1, w1.m.wire, [], 4);
    }
  }

  // The exact outcome of an attempt whose frames are all delivered. The daemon ends synchronised
  // exactly if the LINK_SYNC's id is fresh to the firmware and both secrets give the nonce one tag;
  // the firmware then holds the session of the nonce, and is synchronised itself exactly if the
  // LINK_RESET was fresh or it was not in Startup or Fault.
  lemma UndisturbedOutcome(p: Mcu.Platform, w: Pair, nonce: Bytes, resetId: int, syncId: int, config: Body, fx: Mcu.Effects)
    requires p.crypto.Correct() && Parties(w) && Resting(w) && Both(w) && |nonce| == HANDSHAKE_NONCE_LENGTH
    ensures var w' := Run(p, w, Undisturbed(nonce, resetId, syncId, config, fx));
            && w'.d.wire == [] && w'.m.wire == [] && w'.d.last == w.d.last
            && (w'.d.link == Daemon.Synced <==> Welcome(p, w, nonce, resetId, syncId))
            && (Welcome(p, w, nonce, resetId, syncId) ==>
                  && w'.d.sessionKey == Some(p.crypto.sessionKey(w.d.secret, nonce))
                  && w'.m.key == p.crypto.sessionKey(w.m.secret, nonce)
                  && w'.d.successes == w.d.successes + 1 && w'.m.secret == w.m.secret && w'.m.tx == 0
                  && w'.m.fsm == Shaken(AfterReset(w, resetId))
                  && (Fsm.IsSynchronized(w'.m.fsm) <==>
                        resetId !in w.m.history || (w.m.fsm != Fsm.Startup && w.m.fsm != Fsm.Fault)))
  {
    hide Step, Chatter, Drained, Seen;
    var es := Undisturbed(nonce, resetId, syncId, config, fx);
    Unfold(p, w, es);
    Asking(p, w, nonce, resetId, syncId, config, fx);
    var w6 := Run(p, w, es[..6]);
    Answering(p, w6, nonce, syncId, fx);
    FourTimes(p, Step(p, w6, es[6]));
  }

  // In particular, with fresh ids and one secret the attempt always succeeds, at both ends.
  lemma UndisturbedSucceeds(p: Mcu.Platform, w: Pair, nonce: Bytes, resetId: int, syncId: int, config: Body, fx: Mcu.Effects)
    requires p.crypto.Correct() && Parties(w) && Resting(w) && Both(w) && |nonce| == HANDSHAKE_NONCE_LENGTH
    requires w.d.secret == w.m.secret && resetId !in w.m.history && syncId !in w.m.history && resetId != syncId
    ensures var w' := Run(p, w, Undisturbed(nonce, resetId, syncId, config, fx));
            && w'.d.link == Daemon.Synced && w'.m.fsm == Fsm.Synchronized
            && w'.m.key == p.crypto.sessionKey(w.d.secret, nonce) && w'.d.sessionKey == Some(w'.m.key)
            && w'.d.wire == [] && w'.m.wire == [] && w'.d.successes == w.d.successes + 1
            && w'.m.tx == 0 && w'.d.last == w.d.last && w'.m.secret == w.m.secret
  {
    hide Run, Undisturbed;
    UndisturbedOutcome(p, w, nonce, resetId, syncId, config, fx);
  }

  lemma ChatterConcat(a: seq<Envelope>, b: seq<Envelope>)
    requires Chatter(a) && Chatter(b)
    ensures Chatter(a + b)
  {
  }

  lemma Taking(p: Mcu.Platform, w: Pair, fx: Mcu.Effects)
    requires |w.d.wire| == 1
    ensures Step(p, w, ToMcu(fx)) == Pair(w.d.(wire := []), Mcu.Receive(p, w.m, Some(w.d.wire[0]), fx))
  {
  }

  // A run of eleven events, step by step.
  lemma Unfold(p: Mcu.Platform, w: Pair, es: seq<Event>)
    requires |es| == 11
    ensures Run(p, w, es[..6]) == Step(p, Step(p, Step(p, Step(p, Step(p, Step(p, w, es[0]), es[1]), es[2]), es[3]), es[4]), es[5])
    ensures Run(p, w, es) == Step(p, Step(p, Step(p, Step(p, Step(p, Run(p, w, es[..6]), es[6]), es[7]), es[8]), es[9]), es[10])
  {
    hide Step;
    Prefix(p, w, es, 0); Prefix(p, w, es, 1); Prefix(p, w, es, 2); Prefix(p, w, es, 3); Prefix(p, w, es, 4); Prefix(p, w, es, 5);
    Prefix(p, w, es, 6); Prefix(p, w, es, 7); Prefix(p, w, es, 8); Prefix(p, w, es, 9); Prefix(p, w, es, 10);
    assert es[..11] == es;
  }

  lemma Prefix(p: Mcu.Platform, w: Pair, es: seq<Event>, k: nat)
    requires k < |es|
    ensures Run(p, w, es[..0]) == w && Run(p, w, es[..k + 1]) == Step(p, Run(p, w, es[..k]), es[k])
  {
    hide Step;
    assert es[..k + 1][..k] == es[..k];
  }
}
