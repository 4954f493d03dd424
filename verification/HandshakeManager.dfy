// The daemon's objects, updated in place. A coroutine that suspends is cut at its
// suspension points; `phase` is where the running attempt stands.
module HandshakeManager {
  import opened BigEndian
  import opened Wrappers
  import opened Protocol
  import opened Crypto
  import opened Frames
  import opened D = Daemon
  import Nonce

  // mcubridge/state/context.py
  class RuntimeState {
    var state: Link
    var linkSyncEvent: bool
    var linkHandshakeNonce: Option<Bytes>
    var linkExpectedTag: Option<Bytes>
    var linkSessionKey: Option<Bytes>
    var handshakeAttempts: nat
    var handshakeSuccesses: nat
    var handshakeFailureStreak: nat
    var handshakeFatalCount: nat
    var linkNonceCounter: nat
    var linkLastNonceCounter: nat

    constructor ()
      ensures state == Disconnected && !linkSyncEvent
      ensures linkHandshakeNonce == None && linkExpectedTag == None && linkSessionKey == None
      ensures handshakeAttempts == handshakeSuccesses == handshakeFailureStreak == handshakeFatalCount == 0
      ensures linkNonceCounter == linkLastNonceCounter == 0
    {
      state, linkSyncEvent := Disconnected, false;
      linkHandshakeNonce, linkExpectedTag, linkSessionKey := None, None, None;
      handshakeAttempts, handshakeSuccesses, handshakeFailureStreak, handshakeFatalCount := 0, 0, 0, 0;
      linkNonceCounter, linkLastNonceCounter := 0, 0;
    }

    method MarkTransportConnected()
      modifies this`state
      ensures state == Connected
    {
      state := Connected;
    }

    method MarkTransportDisconnected()
      modifies this`state, this`linkSyncEvent
      ensures state == Disconnected && !linkSyncEvent
    {
      state := Disconnected;
      linkSyncEvent := false;
    }

    method MarkSynchronized()
      modifies this`state, this`linkSyncEvent
      ensures state == Synced && linkSyncEvent
    {
      state := Synced;
      linkSyncEvent := true;
    }
  }

  // mcubridge/services/handshake.py, with the port it writes to
  class SerialHandshakeManager {
    const crypto: Crypto
    const state: RuntimeState
    const secret: Bytes
    const fatalThreshold: nat
    var fsmState: Handshake
    var phase: Phase
    var port: seq<Envelope>
    ghost var used: seq<Bytes>
    ghost var sealed: seq<nat>
    ghost var accepted: seq<nat>

    ghost function State(): D.State
      reads this, state
    {
      D.State(secret, fatalThreshold, fsmState, state.state, state.linkSyncEvent,
        state.linkHandshakeNonce, state.linkExpectedTag, state.linkSessionKey,
        state.handshakeAttempts, state.handshakeSuccesses, state.handshakeFailureStreak, state.handshakeFatalCount,
        phase, state.linkNonceCounter, state.linkLastNonceCounter, port, used, sealed, accepted)
    }

    // What every reachable object satisfies.
    ghost predicate Valid()
      reads this, state
    {
      Coherent(State())
    }

    constructor (crypto: Crypto, state: RuntimeState, secret: Bytes, fatalFailures: int)
      requires state.state == Disconnected && !state.linkSyncEvent
      requires state.linkHandshakeNonce == None && state.linkExpectedTag == None && state.linkSessionKey == None
      requires state.handshakeAttempts == state.handshakeSuccesses == state.handshakeFailureStreak == state.handshakeFatalCount == 0
      requires state.linkNonceCounter == state.linkLastNonceCounter == 0
      ensures Valid() && State() == Initial(secret, if fatalFailures < 1 then 1 else fatalFailures)
      ensures this.crypto == crypto && this.state == state
    {
      this.crypto, this.state, this.secret := crypto, state, secret;
      fatalThreshold := if fatalFailures < 1 then 1 else fatalFailures;
      fsmState, phase, port := Unsynchronized, Idle, [];
      used, sealed, accepted := [], [], [];
    }

    // The link flag never outlives the state it stands for.
    method SetFsmState(next: Handshake)
      modifies this, state
      ensures State() == SetFsm(old(State()), next)
      ensures fsmState == next
      ensures old(state.state == Synced ==> fsmState == Synchronized) ==> (state.state == Synced ==> next == Synchronized)
      ensures old(fsmState) != Synchronized && next == Synchronized ==> state.state == Synced && state.linkSyncEvent
    {
      var previous := fsmState;
      if previous == next { return; }
      fsmState := next;
      if next == Synchronized {
        state.MarkSynchronized();
      } else if previous == Synchronized {
        state.MarkTransportConnected();
      }
    }

    method ClearHandshakeExpectations()
      modifies this, state
      ensures State() == Clear(old(State()))
    {
      state.linkHandshakeNonce := None;
      state.linkExpectedTag := None;
    }

    // A failure always ends in Fault with the link down, from any state, and costs no nonce or key;
    // it is fatal if its reason is, or if the streak has reached the threshold.
    method HandleHandshakeFailure(immediatelyFatal: bool)
      modifies this, state
      ensures State() == Fail(old(State()), immediatelyFatal)
      ensures fsmState == Fault && state.state == Connected
      ensures state.handshakeFailureStreak == old(state.handshakeFailureStreak) + 1
      ensures state.handshakeFatalCount - old(state.handshakeFatalCount) ==
                if immediatelyFatal || state.handshakeFailureStreak >= fatalThreshold then 1 else 0
      ensures old(Valid()) ==> Valid()
    {
      hide Coherent, SetFsm;
      ghost var s := State();
      RecordFailure(immediatelyFatal);
      if Coherent(s) { StepCoherent(crypto, s, Rejection(Tail(false, immediatelyFatal))); }
    }

    method RecordFailure(immediatelyFatal: bool)
      modifies this, state
      ensures State() == Fail(old(State()), immediatelyFatal)
    {
      SetFsmState(Fault);
      state.handshakeFailureStreak := state.handshakeFailureStreak + 1;
      state.MarkTransportConnected();
      if immediatelyFatal || state.handshakeFailureStreak >= fatalThreshold {
        state.handshakeFatalCount := state.handshakeFatalCount + 1;
      }
    }

    // A response has been accepted and not yet counted.
    ghost predicate CountsNext()
      reads this, state
    {
      && Valid() && fsmState == Synchronized && state.linkHandshakeNonce == None
      && state.handshakeSuccesses < state.handshakeAttempts
    }

    // Ends every streak, and keeps successes within attempts when an attempt is still uncounted.
    method HandleHandshakeSuccess()
      modifies this, state
      ensures State() == Succeed(old(State()))
      ensures state.handshakeFailureStreak == 0 && state.state == Synced && state.linkSyncEvent
      ensures old(CountsNext()) ==> Valid()
    {
      state.handshakeFailureStreak := 0;
      state.MarkSynchronized();
      state.handshakeSuccesses := state.handshakeSuccesses + 1;
    }

    method CalculateHandshakeTag(nonce: Bytes) returns (tag: Bytes)
      ensures tag == HandshakeTag(crypto, secret, nonce)
    {
      if secret == [] {
        tag := [];
      } else {
        tag := crypto.tag(secret, nonce);
      }
    }

    // ---- _attempt and _synchronize_attempt, piece by piece ----

    // The link is down, the new nonce alone is expected, and an attempt is open.
    method StartAttempt(nonce: Bytes)
      requires Valid()
      modifies this, state
      ensures Valid() && State() == BeginAttempt(crypto, old(State()), nonce)
      ensures state.state != Synced && !state.linkSyncEvent && fsmState == Resetting
      ensures state.linkHandshakeNonce == Some(nonce) && state.handshakeSuccesses < state.handshakeAttempts
    {
      hide Counted, SetFsm;
      BeginCoherent(crypto, State(), nonce);
      OpenAttempt(nonce);
    }

    method OpenAttempt(nonce: Bytes)
      modifies this, state
      ensures State() == BeginAttempt(crypto, old(State()), nonce)
    {
      state.handshakeAttempts := state.handshakeAttempts + 1;
      SetFsmState(Unsynchronized);
      SetFsmState(Resetting);
      state.linkSyncEvent := false;
      state.linkHandshakeNonce := Some(nonce);
      var tag := CalculateHandshakeTag(nonce);
      state.linkExpectedTag := Some(tag);
      phase := SendingReset(nonce);
      used := used + [nonce];
    }

    // A frame that could not be sent ends the attempt: Fault, nothing expected any more.
    method AfterReset(sent: bool)
      requires Valid() && phase.SendingReset?
      modifies this, state
      ensures Valid() && State() == ResetDone(old(State()), sent)
      ensures sent ==> phase == Settling(old(phase).nonce) && state.linkHandshakeNonce == old(state.linkHandshakeNonce)
      ensures !sent ==> phase == Idle && fsmState == Fault && state.state != Synced && state.linkHandshakeNonce == None
    {
      hide Coherent;
      StepCoherent(crypto, State(), ResetSent(sent));
      if sent {
        phase := Settling(phase.nonce);
        return;
      }
      ClearHandshakeExpectations();
      HandleHandshakeFailure(false);
      phase := Idle;
    }

    method AfterSettling()
      requires Valid() && phase.Settling?
      modifies this, state
      ensures Valid() && State() == EnterSyncing(old(State()))
    {
      StepCoherent(crypto, State(), Stabilised);
      var nonce := phase.nonce;
      SetFsmState(Syncing);
      phase := SendingSync(nonce, false);
    }

    method SendLinkSync(seqId: int)
      requires Valid() && phase.SendingSync?
      modifies this, state
      ensures Valid() && State() == WriteSync(crypto, old(State()), seqId)
    {
      var nonce := phase.nonce;
      var tag := CalculateHandshakeTag(nonce);
      port := port + [Envelope(CMD_LINK_SYNC, seqId, seq(NONCE_SIZE, _ => 0), Sync(nonce, tag))];
      phase := SendingSync(nonce, true);
    }

    // The attempt goes on to wait exactly if the frame was sent and no response failed it meanwhile;
    // a response that already succeeded is not undone.
    method AfterSync(sent: bool)
      requires Valid() && phase.SendingSync?
      modifies this, state
      ensures Valid() && State() == SyncDone(old(State()), sent)
      ensures phase.AwaitingConfirmation? <==> sent && old(fsmState) != Fault
      ensures sent && old(fsmState) == Synchronized ==> fsmState == Synchronized && state.state == old(state.state)
      ensures !sent ==> fsmState == Fault && state.linkHandshakeNonce == None
    {
      hide Coherent;
      StepCoherent(crypto, State(), SyncSent(sent));
      var nonce := phase.nonce;
      if !sent {
        ClearHandshakeExpectations();
        HandleHandshakeFailure(false);
        phase := Idle;
        return;
      }
      if fsmState == Fault {
        phase := Idle;
        return;
      }
      if fsmState == Syncing {
        SetFsmState(Confirming);
      }
      phase := AwaitingConfirmation(nonce);
    }

    // Success is reported exactly if the link stands; otherwise the nonce is no longer expected,
    // unless a response has already failed the attempt.
    method AfterConfirmation(expired: bool) returns (synchronized: bool)
      requires Valid() && phase.AwaitingConfirmation? && (expired || state.linkSyncEvent || state.state == Synced)
      modifies this, state
      ensures Valid() && State() == Confirm(old(State()), expired)
      ensures synchronized <==> !expired && old(state.state) == Synced
      ensures synchronized ==> fsmState == Synchronized && state.state == Synced
      ensures !synchronized && old(fsmState) != Fault ==> state.linkHandshakeNonce == None
      ensures !synchronized && old(fsmState != Fault && state.linkHandshakeNonce == Some(phase.nonce)) ==>
                fsmState == Fault && state.handshakeFailureStreak == old(state.handshakeFailureStreak) + 1
    {
      hide Counted;
      StepCoherent(crypto, State(), WaitOver(expired));
      synchronized := EndWait(expired);
    }

    method EndWait(expired: bool) returns (synchronized: bool)
      requires phase.AwaitingConfirmation?
      modifies this, state
      ensures State() == Confirm(old(State()), expired)
      ensures synchronized <==> !expired && old(state.state) == Synced && fsmState == Synchronized
    {
      var nonce := phase.nonce;
      var confirmed := !expired && state.state == Synced;
      phase := Idle;
      if !confirmed {
        if fsmState == Fault { return false; }
        var pendingNonce := state.linkHandshakeNonce;
        ClearHandshakeExpectations();
        if pendingNonce == Some(nonce) {
          HandleHandshakeFailure(false);
        }
        return false;
      }
      if fsmState != Synchronized && fsmState != Fault {
        SetFsmState(Synchronized);
      }
      return fsmState == Synchronized;
    }

    // handle_link_sync_resp up to its first suspension; `rest` is what follows it. The session of the
    // pending nonce is taken exactly if the response matches; any other changes nothing yet.
    method HandleLinkSyncResp(resp: Option<(Bytes, Bytes)>, throttled: bool) returns (rest: Option<Tail>)
      requires Valid()
      modifies this, state
      ensures Valid()
      ensures State() == OnSyncResp(crypto, old(State()), resp, throttled).0
      ensures rest == OnSyncResp(crypto, old(State()), resp, throttled).1
      ensures if Matches(crypto, old(State()), Response(resp, throttled))
              then rest == None && Entered(crypto, old(State()), State())
              else State() == old(State())
    {
      ghost var s := State();
      StepCoherent(crypto, s, Response(resp, throttled));
      ResponseEnters(crypto, s, resp, throttled);
      rest := JudgeSyncResp(resp, throttled);
    }

    method JudgeSyncResp(resp: Option<(Bytes, Bytes)>, throttled: bool) returns (rest: Option<Tail>)
      modifies this, state
      ensures State() == OnSyncResp(crypto, old(State()), resp, throttled).0
      ensures rest == OnSyncResp(crypto, old(State()), resp, throttled).1
    {
      var expected := state.linkHandshakeNonce;
      if expected == None { return Some(Tail(false, false)); }
      if throttled { return Some(Tail(false, false)); }
      if resp == None { return Some(Tail(true, false)); }
      var (nonce, tag) := resp.value;
      var recalculated := CalculateHandshakeTag(nonce);
      if nonce != expected.value { return None; }
      if state.linkExpectedTag == None || |tag| != TAG_LENGTH || tag != recalculated {
        return Some(Tail(true, true));
      }
      if secret != [] {
        state.linkSessionKey := Some(crypto.sessionKey(secret, nonce));
      }
      SetFsmState(Synchronized);
      ClearHandshakeExpectations();
      HandleHandshakeSuccess();
      return None;
    }

    method FinishRejection(rest: Tail)
      requires Valid()
      modifies this, state
      ensures Valid() && State() == RejectTail(old(State()), rest)
    {
      hide Coherent;
      StepCoherent(crypto, State(), Rejection(rest));
      if rest.clear {
        ClearHandshakeExpectations();
      }
      HandleHandshakeFailure(rest.fatal);
    }

    // ---- send_raw and _process_packet of mcubridge/transport/serial.py ----

    // At most one frame is written. In a session a frame that is no system frame carries the next
    // counter, never plain zeros, and opens to exactly the text; every counter sealed with is above
    // all before it.
    method SendRaw(cmd: int, seqId: int, body: Body, text: Bytes, random: Bytes)
      requires Valid() && |random| == 4
      modifies this, state
      ensures Valid() && State() == D.SendRaw(crypto, old(State()), cmd, seqId, body, text, random)
      ensures port == old(port) || (|port| == |old(port)| + 1 && port[..|port| - 1] == old(port))
      ensures port != old(port) && old(state.state) == Synced && !IsSystem(cmd) ==>
                && state.linkNonceCounter == old(state.linkNonceCounter) + 1
                && Nonce.Extract(port[|port| - 1].nonce) == Some(state.linkNonceCounter)
      ensures Logged(sealed, state.linkNonceCounter) && old(sealed) <= sealed
      ensures crypto.Correct() && port != old(port) && old(state.state) == Synced && !IsSystem(cmd)
              && old(state.linkSessionKey.value) != [] ==>
                var f := port[|port| - 1];
                f.cmd == cmd && f.seqId == seqId &&
                crypto.open(old(state.linkSessionKey.value), f.nonce, cmd, seqId, Cipher(f)) == Some(text)
    {
      ghost var s := State();
      if crypto.Correct() { SendCarries(crypto, s, cmd, seqId, body, text, random); }
      SendCoherent(crypto, s, cmd, seqId, body, text, random);
      SendCounts(crypto, s, cmd, seqId, body, text, random);
      Nonce.GenerateExtract(state.linkNonceCounter, random);
      WriteFrame(cmd, seqId, body, text, random);
    }

    method WriteFrame(cmd: int, seqId: int, body: Body, text: Bytes, random: Bytes)
      requires |random| == 4
      modifies this, state
      ensures State() == D.SendRaw(crypto, old(State()), cmd, seqId, body, text, random)
    {
      var nonce := seq(NONCE_SIZE, _ => 0 as Byte);
      var payload := body;
      if state.state == Synced && !IsSystem(cmd) {
        var generated := Nonce.Generate(state.linkNonceCounter, random);
        if generated == None { return; }
        nonce := generated.value.0;
        state.linkNonceCounter := generated.value.1;
        if state.linkSessionKey.Some? && state.linkSessionKey.value != [] {
          var cipher := crypto.seal(state.linkSessionKey.value, nonce, cmd, seqId, text);
          if cipher == None { return; }
          sealed := sealed + [state.linkNonceCounter];
          payload := Blob(cipher.value);
        }
      }
      port := port + [Envelope(cmd, seqId, nonce, payload)];
    }

    // accepted: the frame goes on to correlation and dispatch. A refused frame changes nothing; in a
    // session an accepted one is authentic and above every counter accepted so far.
    method ProcessPacket(env: Envelope) returns (ok: bool)
      requires Valid()
      modifies this, state
      ensures Valid()
      ensures State() == D.ProcessPacket(crypto, old(State()), env).0
      ensures ok == D.ProcessPacket(crypto, old(State()), env).1
      ensures !ok ==> State() == old(State())
      ensures ok && old(state.state) == Synced && !IsSystem(env.cmd) ==>
                && accepted == old(accepted) + [state.linkLastNonceCounter]
                && (forall n :: n in old(accepted) ==> n < state.linkLastNonceCounter)
                && (old(state.linkSessionKey.value) != [] ==> Authentic(crypto, old(State()), env))
    {
      ghost var s := State();
      StepCoherent(crypto, s, Packet(env));
      if state.state == Synced && !IsSystem(env.cmd) {
        if state.linkSessionKey.Some? && state.linkSessionKey.value != [] {
          var text := crypto.open(state.linkSessionKey.value, env.nonce, env.cmd, env.seqId, Cipher(env));
          if text == None { return false; }
        }
        var (newer, counter) := Nonce.Validate(env.nonce, state.linkLastNonceCounter);
        if !newer { return false; }
        state.linkLastNonceCounter := counter;
        accepted := accepted + [counter];
      }
      return true;
    }

    // ---- Runs of the object ----

    // The running attempt resumes, or a new one starts.
    method Resume(e: Event)
      requires Valid()
      requires e.Start? || e.SendResetFrame? || e.ResetSent? || e.Stabilised? || e.SendSyncFrame? || e.SyncSent? || e.WaitOver?
      modifies this, state
      ensures Valid() && State() == D.Step(crypto, old(State()), e)
    {
      StepCoherent(crypto, State(), e);
      hide Coherent, BeginAttempt, ResetDone, EnterSyncing, WriteSync, SyncDone, Confirm;
      match e {
        case Start(nonce) =>
          if phase == Idle && |nonce| == HANDSHAKE_NONCE_LENGTH { StartAttempt(nonce); }
        case SendResetFrame(seqId, config) =>
          if phase.SendingReset? {
            port := port + [Envelope(CMD_LINK_RESET, seqId, seq(NONCE_SIZE, _ => 0), config)];
          }
        case ResetSent(ok) => if phase.SendingReset? { AfterReset(ok); }
        case Stabilised => if phase.Settling? { AfterSettling(); }
        case SendSyncFrame(seqId) => if phase.SendingSync? && !phase.written { SendLinkSync(seqId); }
        case SyncSent(ok) => if phase.SendingSync? { AfterSync(ok); }
        case WaitOver(expired) =>
          if phase.AwaitingConfirmation? && (expired || state.linkSyncEvent || state.state == Synced) {
            var _ := AfterConfirmation(expired);
          }
      }
    }

    // Whatever happens next: a resumed coroutine, a frame, the port.
    method Step(e: Event)
      requires Valid()
      modifies this, state
      ensures Valid() && State() == D.Step(crypto, old(State()), e)
    {
      StepCoherent(crypto, State(), e);
      hide Coherent, OnSyncResp, RejectTail, D.SendRaw, D.ProcessPacket, SetFsm;
      match e {
        case GiveUp => if phase == Idle { SetFsmState(Fault); }
        case Cancelled => phase := Idle;
        case Response(resp, throttled) => var _ := HandleLinkSyncResp(resp, throttled);
        case Rejection(tail) => FinishRejection(tail);
        case PortOpened => state.MarkTransportConnected();
        case PortLost =>
          state.MarkTransportDisconnected();
          ClearHandshakeExpectations();
        case Send(cmd, seqId, body, text, random) =>
          if |random| == 4 && cmd != CMD_LINK_SYNC { SendRaw(cmd, seqId, body, text, random); }
        case Packet(env) => var _ := ProcessPacket(env);
        case _ => Resume(e);
      }
    }

    // A run of the object is a run of the model, so all that holds of every interleaving holds of it.
    method Drive(events: seq<Event>)
      requires Valid()
      modifies this, state
      ensures Valid() && State() == Run(crypto, old(State()), events)
    {
      hide Coherent, D.Step;
      for k := 0 to |events|
        invariant Valid() && State() == Run(crypto, old(State()), events[..k])
      {
        Step(events[k]);
        assert events[..k + 1][..k] == events[..k];
      }
      assert events[..|events|] == events;
    }
  }

  // From start-up, for every interleaving: the object satisfies the handshake invariant and has
  // accepted and sealed strictly rising counters.
  method StartUp(crypto: Crypto, secret: Bytes, fatalFailures: int, events: seq<Event>) returns (h: SerialHandshakeManager)
    ensures h.crypto == crypto && h.Valid()
    ensures h.State() == Run(crypto, Initial(secret, if fatalFailures < 1 then 1 else fatalFailures), events)
    ensures h.state.state == Synced ==> h.fsmState == Synchronized && h.state.linkSessionKey.Some?
    ensures Rising(h.sealed) && Rising(h.accepted) && h.state.handshakeSuccesses <= h.state.handshakeAttempts
  {
    hide D.Step;
    var state := new RuntimeState();
    h := new SerialHandshakeManager(crypto, state, secret, fatalFailures);
    h.Drive(events);
  }
}
