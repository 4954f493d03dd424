// The daemon's end of the link: the handshake manager, the link flags and the
// nonce counters, cut at the points where the coroutines suspend.
module Daemon {
  import opened BigEndian
  import opened Wrappers
  import opened Protocol
  import opened Crypto
  import opened Frames
  import Nonce

  datatype Handshake = Unsynchronized | Resetting | Syncing | Confirming | Synchronized | Fault

  datatype Link = Disconnected | Connected | Synced

  // Where the one running synchronisation attempt is suspended.
  datatype Phase =
    | Idle
    | SendingReset(nonce: Bytes)
    | Settling(nonce: Bytes)
    | SendingSync(nonce: Bytes, written: bool)
    | AwaitingConfirmation(nonce: Bytes)

  datatype State = State(
    secret: Bytes,
    threshold: nat,
    fsm: Handshake,
    link: Link,
    syncEvent: bool,
    pending: Option<Bytes>,
    expectedTag: Option<Bytes>,
    sessionKey: Option<Bytes>,
    attempts: nat,
    successes: nat,
    streak: nat,
    fatalCount: nat,
    phase: Phase,
    tx: nat,
    last: nat,
    wire: seq<Envelope>,
    used: seq<Bytes>,       // the nonce of every attempt so far
    sealed: seq<nat>,       // the counter of every frame encrypted so far
    accepted: seq<nat>)     // the counter of every frame accepted so far

  // ---- RuntimeState ----

  function MarkConnected(s: State): State { s.(link := Connected) }
  function MarkDisconnected(s: State): State { s.(link := Disconnected, syncEvent := false) }
  function MarkSynchronized(s: State): State { s.(link := Synced, syncEvent := true) }

  // ---- SerialHandshakeManager ----

  function HandshakeTag(c: Crypto, secret: Bytes, nonce: Bytes): Bytes
  {
    if secret == [] then [] else c.tag(secret, nonce)
  }

  function SetFsm(s: State, next: Handshake): (r: State)
    ensures r == s.(fsm := next, link := r.link, syncEvent := r.syncEvent)
    ensures r.link == s.link || r.link == (if next == Synchronized then Synced else Connected)
    ensures s.link == Synced && s.fsm == Synchronized && next != Synchronized ==> r.link == Connected
    ensures s.fsm != next == Synchronized ==> r.link == Synced
  {
    if s.fsm == next then s
    else
      var s1 := s.(fsm := next);
      if next == Synchronized then MarkSynchronized(s1)
      else if s.fsm == Synchronized then MarkConnected(s1)
      else s1
  }

  function Clear(s: State): State { s.(pending := None, expectedTag := None) }

  // fatal: the reason is one of the two that are fatal at once.
  function Fail(s: State, fatal: bool): (r: State)
    ensures r == s.(fsm := Fault, link := Connected, streak := s.streak + 1, syncEvent := r.syncEvent, fatalCount := r.fatalCount)
  {
    var s1 := MarkConnected(SetFsm(s, Fault).(streak := s.streak + 1));
    if fatal || s1.streak >= s1.threshold then s1.(fatalCount := s1.fatalCount + 1) else s1
  }

  function Succeed(s: State): State
  {
    MarkSynchronized(s.(streak := 0)).(successes := s.successes + 1)
  }

  // The start of an attempt, up to the first send.
  function BeginAttempt(c: Crypto, s: State, nonce: Bytes): State
  {
    SetFsm(SetFsm(s, Unsynchronized), Resetting).(
      attempts := s.attempts + 1, syncEvent := false,
      pending := Some(nonce), expectedTag := Some(HandshakeTag(c, s.secret, nonce)),
      phase := SendingReset(nonce), used := s.used + [nonce])
  }

  // A system frame: no encryption, a nonce of zeros.
  function WriteSystem(s: State, cmd: int, seqId: int, body: Body): State
  {
    s.(wire := s.wire + [Envelope(cmd, seqId, seq(NONCE_SIZE, _ => 0), body)])
  }

  function ResetDone(s: State, ok: bool): State
    requires s.phase.SendingReset?
  {
    if ok then s.(phase := Settling(s.phase.nonce))
    else Fail(Clear(s), false).(phase := Idle)
  }

  function EnterSyncing(s: State): State
    requires s.phase.Settling?
  {
    SetFsm(s, Syncing).(phase := SendingSync(s.phase.nonce, false))
  }

  function WriteSync(c: Crypto, s: State, seqId: int): State
    requires s.phase.SendingSync?
  {
    var n := s.phase.nonce;
    WriteSystem(s, CMD_LINK_SYNC, seqId, Sync(n, HandshakeTag(c, s.secret, n))).(phase := SendingSync(n, true))
  }

  function SyncDone(s: State, ok: bool): State
    requires s.phase.SendingSync?
  {
    if !ok then Fail(Clear(s), false).(phase := Idle)
    else if s.fsm == Fault then s.(phase := Idle)
    else
      var s1 := if s.fsm == Syncing then SetFsm(s, Confirming) else s;
      s1.(phase := AwaitingConfirmation(s.phase.nonce))
  }

  // The wait ends: by its timer, or because the sync event is set or was not needed.
  function Confirm(s: State, expired: bool): State
    requires s.phase.AwaitingConfirmation?
  {
    var confirmed := !expired && s.link == Synced;
    if !confirmed then
      if s.fsm == Fault then s.(phase := Idle)
      else
        var s1 := Clear(s);
        (if s.pending == Some(s.phase.nonce) then Fail(s1, false) else s1).(phase := Idle)
    else
      (if s.fsm != Synchronized && s.fsm != Fault then SetFsm(s, Synchronized) else s).(phase := Idle)
  }

  // What is left to do after the acknowledgement of a rejected response is sent.
  datatype Tail = Tail(clear: bool, fatal: bool)

  function RejectTail(s: State, t: Tail): State
  {
    Fail(if t.clear then Clear(s) else s, t.fatal)
  }

  // handle_link_sync_resp up to its first suspension. resp: None does not decode.
  function OnSyncResp(c: Crypto, s: State, resp: Option<(Bytes, Bytes)>, throttled: bool): (State, Option<Tail>)
  {
    if s.pending.None? then (s, Some(Tail(false, false)))
    else if throttled then (s, Some(Tail(false, false)))
    else if resp.None? then (s, Some(Tail(true, false)))
    else
      var (nonce, tag) := resp.value;
      if nonce != s.pending.value then (s, None)
      else if s.expectedTag.None? || |tag| != TAG_LENGTH || tag != HandshakeTag(c, s.secret, nonce) then
        (s, Some(Tail(true, true)))
      else
        var s1 := if s.secret != [] then s.(sessionKey := Some(c.sessionKey(s.secret, nonce))) else s;
        (Succeed(Clear(SetFsm(s1, Synchronized))), None)
  }

  // ---- SerialTransport ----

  // send_raw for anything but the handshake; text is the serialised payload. A counter
  // that would overflow raises and nothing is written.
  function SendRaw(c: Crypto, s: State, cmd: int, seqId: int, body: Body, text: Bytes, random: Bytes): State
    requires |random| == 4
  {
    if s.link == Synced && !IsSystem(cmd) then
      match Nonce.Generate(s.tx, random)
      case None => s
      case Some((nonce, next)) =>
        var s1 := s.(tx := next);
        if s.sessionKey.None? || s.sessionKey.value == [] then
          s1.(wire := s1.wire + [Envelope(cmd, seqId, nonce, body)])
        else
          match c.seal(s.sessionKey.value, nonce, cmd, seqId, text)
          case None => s1
          case Some(ct) =>
            s1.(sealed := s1.sealed + [next], wire := s1.wire + [Envelope(cmd, seqId, nonce, Blob(ct))])
    else WriteSystem(s, cmd, seqId, body)
  }

  // _process_packet: authentication, then the replay check. The second component says
  // whether the frame goes on to the service.
  function ProcessPacket(c: Crypto, s: State, env: Envelope): (State, bool)
  {
    if s.link == Synced && !IsSystem(env.cmd) then
      var keyed := s.sessionKey.Some? && s.sessionKey.value != [];
      if keyed && c.open(s.sessionKey.value, env.nonce, env.cmd, env.seqId, Cipher(env)).None? then (s, false)
      else
        var (ok, counter) := Nonce.Validate(env.nonce, s.last);
        if ok then (s.(last := counter, accepted := s.accepted + [counter]), true) else (s, false)
    else (s, true)
  }

  // ---- Steps ----

  datatype Event =
    | Start(nonce: Bytes)
    | SendResetFrame(seqId: int, config: Body)
    | ResetSent(ok: bool)
    | Stabilised
    | SendSyncFrame(seqId: int)
    | SyncSent(ok: bool)
    | WaitOver(expired: bool)
    | GiveUp
    | Cancelled
    | Response(resp: Option<(Bytes, Bytes)>, throttled: bool)
    | Rejection(tail: Tail)
    | PortOpened
    | PortLost
    | Send(cmd: int, seqId: int, body: Body, text: Bytes, random: Bytes)
    | Packet(env: Envelope)

  // An event that cannot happen in a state leaves it unchanged. A rejection's tail is
  // allowed at any time, which covers every interleaving of suspended handlers.
  function Step(c: Crypto, s: State, e: Event): State
  {
    match e
    case Start(nonce) =>
      if s.phase == Idle && |nonce| == HANDSHAKE_NONCE_LENGTH then BeginAttempt(c, s, nonce) else s
    case SendResetFrame(seqId, config) =>
      if s.phase.SendingReset? then WriteSystem(s, CMD_LINK_RESET, seqId, config) else s
    case ResetSent(ok) => if s.phase.SendingReset? then ResetDone(s, ok) else s
    case Stabilised => if s.phase.Settling? then EnterSyncing(s) else s
    case SendSyncFrame(seqId) =>
      if s.phase.SendingSync? && !s.phase.written then WriteSync(c, s, seqId) else s
    case SyncSent(ok) => if s.phase.SendingSync? then SyncDone(s, ok) else s
    case WaitOver(expired) =>
      if s.phase.AwaitingConfirmation? && (expired || s.syncEvent || s.link == Synced) then Confirm(s, expired) else s
    case GiveUp => if s.phase == Idle then SetFsm(s, Fault) else s
    case Cancelled => s.(phase := Idle)
    case Response(resp, throttled) => OnSyncResp(c, s, resp, throttled).0
    case Rejection(tail) => RejectTail(s, tail)
    case PortOpened => MarkConnected(s)
    case PortLost => Clear(MarkDisconnected(s))
    case Send(cmd, seqId, body, text, random) =>
      if |random| == 4 && cmd != CMD_LINK_SYNC then SendRaw(c, s, cmd, seqId, body, text, random) else s
    case Packet(env) => ProcessPacket(c, s, env).0
  }

  function Run(c: Crypto, s: State, events: seq<Event>): State
    decreases |events|
  {
    if events == [] then s else Step(c, Run(c, s, events[..|events| - 1]), events[|events| - 1])
  }

  function Initial(secret: Bytes, threshold: nat): State
  {
    State(secret, threshold, Unsynchronized, Disconnected, false, None, None, None, 0, 0, 0, 0, Idle, 0, 0, [], [], [], [])
  }

  // ---- What every interleaving keeps ----

  predicate Rising(s: seq<nat>) { forall i, j :: 0 <= i < j < |s| ==> s[i] < s[j] }

  // A log of counters and the counter it was taken from.
  predicate Logged(log: seq<nat>, counter: nat)
  {
    Rising(log) && forall n :: n in log ==> n <= counter
  }

  predicate Negotiated(s: State)
  {
    && (s.link == Synced ==> s.fsm == Synchronized)
    && s.successes + (if s.pending.Some? then 1 else 0) <= s.attempts
    && |s.used| == s.attempts
    && (s.pending.Some? ==> s.used != [] && s.pending.value == s.used[|s.used| - 1])
    && (s.expectedTag.Some? <==> s.pending.Some?)
    && (s.secret == [] ==> s.fsm != Synchronized)
    && (s.fsm == Synchronized ==> s.sessionKey.Some?)
  }

  predicate Counted(s: State)
  {
    && Logged(s.sealed, s.tx)
    && Logged(s.accepted, s.last)
    && s.last == if s.accepted == [] then 0 else s.accepted[|s.accepted| - 1]
  }

  predicate Coherent(s: State) { Negotiated(s) && Counted(s) }

  lemma LoggedAppend(log: seq<nat>, counter: nat, n: nat)
    requires Logged(log, counter) && counter < n
    ensures Logged(log + [n], n) && Logged(log, n)
  {
    forall i, j | 0 <= i < j < |log + [n]| ensures (log + [n])[i] < (log + [n])[j] {
      assert (log + [n])[i] == log[i] && log[i] in log;
    }
  }

  // One more frame at the end.
  predicate Extended(wire: seq<Envelope>, wire': seq<Envelope>)
  {
    |wire'| == |wire| + 1 && wire'[..|wire|] == wire
  }

  // What a send puts on the wire. In a session a frame that is no system frame carries the command,
  // the id and the next counter, and opens under the session key to exactly the text; nothing is
  // written only if the counter is used up or the library cannot seal. Any other frame goes out as
  // it is, with a nonce of zeros.
  lemma SendCarries(c: Crypto, s: State, cmd: int, seqId: int, body: Body, text: Bytes, random: Bytes)
    requires c.Correct() && |random| == 4
    ensures var wire := SendRaw(c, s, cmd, seqId, body, text, random).wire;
            if s.link != Synced || IsSystem(cmd) then wire == s.wire + [Envelope(cmd, seqId, seq(NONCE_SIZE, _ => 0), body)]
            else if s.sessionKey.Some? && s.sessionKey.value != [] then
              || (wire == s.wire && (s.tx >= U64 - 1 || exists n: Bytes :: c.seal(s.sessionKey.value, n, cmd, seqId, text).None?))
              || (Extended(s.wire, wire)
                  && var f := wire[|s.wire|];
                     && f.cmd == cmd && f.seqId == seqId && Nonce.Extract(f.nonce) == Some(s.tx + 1)
                     && c.open(s.sessionKey.value, f.nonce, cmd, seqId, Cipher(f)) == Some(text))
            else true
  {
    Nonce.GenerateExtract(s.tx, random);
  }

  // What the two traffic steps touch: the counters, their logs and the wire.
  lemma SendCounts(c: Crypto, s: State, cmd: int, seqId: int, body: Body, text: Bytes, random: Bytes)
    requires |random| == 4
    ensures var s' := SendRaw(c, s, cmd, seqId, body, text, random);
            && s' == s.(tx := s'.tx, sealed := s'.sealed, wire := s'.wire)
            && (Negotiated(s) ==> Negotiated(s'))
            && s.tx <= s'.tx <= s.tx + 1
            && (s'.sealed == s.sealed || (s'.tx == s.tx + 1 && s'.sealed == s.sealed + [s'.tx]))
  {
  }

  lemma PacketCounts(c: Crypto, s: State, env: Envelope)
    ensures var (s', ok) := ProcessPacket(c, s, env);
            && s' == s.(last := s'.last, accepted := s'.accepted)
            && (Negotiated(s) ==> Negotiated(s'))
            && (s' == s || (ok && s'.last > s.last && s'.accepted == s.accepted + [s'.last]))
  {
    hide Nonce.Extract, Cipher, IsSystem;
  }

  predicate Traffic(e: Event) { e.Send? || e.Packet? }

  lemma SyncDoneNegotiated(s: State, ok: bool)
    requires Negotiated(s) && s.phase.SendingSync?
    ensures Negotiated(SyncDone(s, ok))
  {
    hide SetFsm, Fail;
  }

  lemma ClearNegotiated(s: State)
    requires Negotiated(s)
    ensures Negotiated(Clear(s)) && forall fatal :: Negotiated(Fail(Clear(s), fatal))
  {
    hide SetFsm, Fail;
  }

  lemma ConfirmNegotiated(s: State, expired: bool)
    requires Negotiated(s) && s.phase.AwaitingConfirmation?
    ensures Negotiated(Confirm(s, expired))
  {
    hide SetFsm, Fail;
    if !expired && s.link == Synced {
      assert Confirm(s, expired) == s.(phase := Idle);
    } else if s.fsm != Fault {
      ClearNegotiated(s);
    }
  }

  lemma RespNegotiated(c: Crypto, s: State, resp: Option<(Bytes, Bytes)>, throttled: bool)
    requires Negotiated(s)
    ensures Negotiated(OnSyncResp(c, s, resp, throttled).0)
  {
    hide SetFsm, Fail;
  }

  lemma StepNegotiated(c: Crypto, s: State, e: Event)
    requires Negotiated(s) && !Traffic(e)
    ensures Negotiated(Step(c, s, e))
  {
    hide SendRaw, ProcessPacket, SetFsm, Fail, SyncDone, Confirm, OnSyncResp, HandshakeTag;
    match e
    case Start(nonce) =>
    case SendResetFrame(seqId, config) =>
    case ResetSent(ok) =>
    case Stabilised =>
    case SendSyncFrame(seqId) =>
    case SyncSent(ok) => if s.phase.SendingSync? { SyncDoneNegotiated(s, ok); }
    case WaitOver(expired) => if s.phase.AwaitingConfirmation? { ConfirmNegotiated(s, expired); }
    case GiveUp =>
    case Cancelled =>
    case Response(resp, throttled) => RespNegotiated(c, s, resp, throttled);
    case Rejection(tail) =>
    case PortOpened =>
    case PortLost =>
  }

  lemma StepKeepsCounters(c: Crypto, s: State, e: Event)
    requires !Traffic(e)
    ensures var s' := Step(c, s, e);
            s'.tx == s.tx && s'.last == s.last && s'.sealed == s.sealed && s'.accepted == s.accepted
  {
    hide SendRaw, ProcessPacket, HandshakeTag, SetFsm, Fail;
    match e
    case Start(nonce) =>
    case SendResetFrame(seqId, config) =>
    case ResetSent(ok) =>
    case Stabilised =>
    case SendSyncFrame(seqId) =>
    case SyncSent(ok) =>
    case WaitOver(expired) =>
    case GiveUp =>
    case Cancelled =>
    case Response(resp, throttled) =>
    case Rejection(tail) =>
    case PortOpened =>
    case PortLost =>
  }

  lemma StepFloor(c: Crypto, s: State, e: Event)
    ensures Step(c, s, e).last >= s.last && Step(c, s, e).secret == s.secret
  {
    hide SendRaw, ProcessPacket, HandshakeTag, SetFsm, Fail;
    match e
    case Send(cmd, seqId, body, text, random) =>
      if |random| == 4 { SendCounts(c, s, cmd, seqId, body, text, random); }
    case Packet(env) => PacketCounts(c, s, env);
    case _ =>
  }

  lemma StepCoherent(c: Crypto, s: State, e: Event)
    requires Coherent(s)
    ensures Coherent(Step(c, s, e))
  {
    hide Rising, Negotiated;
    hide SendRaw, ProcessPacket;
    match e
    case Send(cmd, seqId, body, text, random) =>
      if |random| == 4 && cmd != CMD_LINK_SYNC {
        SendCounts(c, s, cmd, seqId, body, text, random);
        LoggedAppend(s.sealed, s.tx, s.tx + 1);
      }
    case Packet(env) =>
      PacketCounts(c, s, env);
      var n := Step(c, s, e).last;
      if n > s.last { LoggedAppend(s.accepted, s.last, n); }
    case _ =>
      StepNegotiated(c, s, e);
      StepKeepsCounters(c, s, e);
  }

  lemma BeginCoherent(c: Crypto, s: State, nonce: Bytes)
    requires Coherent(s)
    ensures Coherent(BeginAttempt(c, s, nonce))
  {
    hide Rising, HandshakeTag, SetFsm;
  }

  // The same for a send of any command, the handshake's own included.
  lemma SendCoherent(c: Crypto, s: State, cmd: int, seqId: int, body: Body, text: Bytes, random: Bytes)
    requires Coherent(s) && |random| == 4
    ensures Coherent(SendRaw(c, s, cmd, seqId, body, text, random))
  {
    hide Rising, SendRaw, Negotiated;
    SendCounts(c, s, cmd, seqId, body, text, random);
    LoggedAppend(s.sealed, s.tx, s.tx + 1);
  }

  // Over every interleaving of attempts, responses, failures, disconnects and timeouts:
  // a synchronised link means a synchronised handshake, successes never outrun attempts,
  // and both counter logs are strictly increasing across all sessions.
  lemma {:induction false} EveryRun(c: Crypto, secret: Bytes, threshold: nat, events: seq<Event>)
    ensures Coherent(Run(c, Initial(secret, threshold), events))
    ensures Run(c, Initial(secret, threshold), events).secret == secret
  {
    if events != [] {
      var front := events[..|events| - 1];
      EveryRun(c, secret, threshold, front);
      hide Step, Coherent;
      StepCoherent(c, Run(c, Initial(secret, threshold), front), events[|events| - 1]);
      StepFloor(c, Run(c, Initial(secret, threshold), front), events[|events| - 1]);
    }
  }

  // A response that carries the pending nonce and the tag the shared secret gives it.
  predicate Matches(c: Crypto, s: State, e: Event)
  {
    && e.Response? && !e.throttled && e.resp.Some?
    && s.secret != [] && s.pending == Some(e.resp.value.0)
    && |e.resp.value.1| == TAG_LENGTH && e.resp.value.1 == c.tag(s.secret, e.resp.value.0)
  }

  // Taking the session of the pending nonce.
  predicate Entered(c: Crypto, s: State, s': State)
    requires s.pending.Some?
  {
    && s'.fsm == Synchronized && s'.link == Synced
    && s'.sessionKey == Some(c.sessionKey(s.secret, s.pending.value))
    && s'.pending == None && s'.successes == s.successes + 1
  }

  lemma ResponseEnters(c: Crypto, s: State, resp: Option<(Bytes, Bytes)>, throttled: bool)
    requires Negotiated(s)
    ensures var s' := OnSyncResp(c, s, resp, throttled).0;
            if Matches(c, s, Response(resp, throttled)) then Entered(c, s, s') else s' == s
  {
    hide SetFsm, Fail;
  }

  // Exactly the matching responses synchronise: no other step enters the state, and
  // a matching one always does, deriving the key of the pending nonce.
  lemma OnlyMatchingResponseSynchronises(c: Crypto, s: State, e: Event)
    requires Coherent(s)
    ensures s.fsm != Synchronized ==> (Step(c, s, e).fsm == Synchronized <==> Matches(c, s, e))
    ensures s.link != Synced ==> (Step(c, s, e).link == Synced <==> Matches(c, s, e))
    ensures Matches(c, s, e) ==> Entered(c, s, Step(c, s, e))
  {
    hide SendRaw, ProcessPacket, Counted, SetFsm, Fail, OnSyncResp, HandshakeTag;
    match e
    case Send(cmd, seqId, body, text, random) =>
      if |random| == 4 { SendCounts(c, s, cmd, seqId, body, text, random); }
    case Packet(env) => PacketCounts(c, s, env);
    case Response(resp, throttled) => ResponseEnters(c, s, resp, throttled);
    case _ =>
  }

  // The fallback transition after a confirmed wait never fires.
  lemma ConfirmationFallbackUnreachable(c: Crypto, s: State)
    requires Coherent(s) && s.phase.AwaitingConfirmation? && s.link == Synced
    ensures s.fsm == Synchronized && Confirm(s, false) == s.(phase := Idle)
  {
  }

  // What a response that does not match comes to, once its handler has finished: one for another
  // nonce is ignored; any other fails the handshake. The nonce stays expected only if the response
  // was throttled, and a wrong tag is fatal at once.
  lemma RejectionsDo(c: Crypto, s: State, resp: Option<(Bytes, Bytes)>, throttled: bool)
    requires Negotiated(s) && !Matches(c, s, Response(resp, throttled))
    ensures var (s1, rest) := OnSyncResp(c, s, resp, throttled);
            var foreign := s.pending.Some? && !throttled && resp.Some? && resp.value.0 != s.pending.value;
            var unread := s.pending.Some? && !throttled && resp.None?;
            var forged := s.pending.Some? && !throttled && resp.Some? && resp.value.0 == s.pending.value;
            && s1 == s && (rest.None? <==> foreign)
            && (rest.Some? ==>
                  var s2 := RejectTail(s1, rest.value);
                  && s2.fsm == Fault && s2.link == Connected && s2.streak == s.streak + 1
                  && s2.pending == (if unread || forged then None else s.pending)
                  && s2.fatalCount == s.fatalCount + (if forged || s2.streak >= s.threshold then 1 else 0))
  {
    hide SetFsm;
    ResponseEnters(c, s, resp, throttled);
  }

  // Without a secret the tag is empty and no response can match.
  lemma {:induction false} NoSecretNoSync(c: Crypto, threshold: nat, events: seq<Event>)
    ensures var s := Run(c, Initial([], threshold), events); s.fsm != Synchronized && s.link != Synced
  {
    EveryRun(c, [], threshold, events);
  }

  // The receive floor survives every step, new sessions included: an authentic frame is
  // accepted exactly when its counter exceeds every counter accepted since start-up.
  lemma {:induction false} FloorNeverDrops(c: Crypto, s: State, events: seq<Event>)
    ensures Run(c, s, events).last >= s.last
  {
    if events != [] {
      hide Step;
      FloorNeverDrops(c, s, events[..|events| - 1]);
      StepFloor(c, Run(c, s, events[..|events| - 1]), events[|events| - 1]);
    }
  }

  predicate Authentic(c: Crypto, s: State, env: Envelope)
  {
    && s.link == Synced && !IsSystem(env.cmd) && s.sessionKey.Some?
    && c.open(s.sessionKey.value, env.nonce, env.cmd, env.seqId, Cipher(env)).Some?
  }

  lemma AcceptedIffAboveFloor(c: Crypto, s: State, env: Envelope, counter: nat)
    requires Coherent(s) && counter < U64 && Nonce.Extract(env.nonce) == Some(counter)
    requires s.link == Synced && !IsSystem(env.cmd) && s.sessionKey.value != []
    ensures var (s', ok) := ProcessPacket(c, s, env);
            && (ok <==> Authentic(c, s, env) && counter > 0 && forall n :: n in s.accepted ==> n < counter)
            && s' == if ok then s.(last := counter, accepted := s.accepted + [counter]) else s
  {
    hide Nonce.Extract, Rising, Cipher;
    if s.accepted != [] {
      assert s.accepted[|s.accepted| - 1] in s.accepted;
    }
  }

  // Outside a session, and for system frames at any time, every frame goes on unexamined.
  lemma OutsideSessionAccepted(c: Crypto, s: State, env: Envelope)
    requires s.link != Synced || IsSystem(env.cmd)
    ensures ProcessPacket(c, s, env) == (s, true)
  {
  }

  // Giving up leaves the handshake in Fault with the link down; losing the port takes the link and
  // the expectation away but not the key; opening it brings a link that is not synchronised.
  lemma EndingsDo(c: Crypto, s: State)
    requires Negotiated(s)
    ensures s.phase == Idle ==> Step(c, s, GiveUp).fsm == Fault && Step(c, s, GiveUp).link != Synced
    ensures var s' := Step(c, s, PortLost);
            s'.link == Disconnected && !s'.syncEvent && s'.pending == None && s'.expectedTag == None && s'.sessionKey == s.sessionKey
    ensures Step(c, s, PortOpened).link == Connected && Step(c, s, Cancelled) == s.(phase := Idle)
  {
  }

  // So a restarted counter is refused: once counter 1 or more has been accepted, the first
  // frame of any later session is dropped although it authenticates.
  lemma FirstFrameOfLaterSessionRefused(c: Crypto, s: State, events: seq<Event>, env: Envelope)
    requires s.last >= 1 && env.nonce == Nonce.Firmware(1)
    ensures Authentic(c, Run(c, s, events), env) ==> !ProcessPacket(c, Run(c, s, events), env).1
  {
    FloorNeverDrops(c, s, events);
    Nonce.FirmwareExtract(1);
  }
}
