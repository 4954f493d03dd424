// The firmware object: pending frames live in buffers of a fixed pool, and every
// method changes the fields in place. Each method is one step of module Mcu.
module BridgeClass {
  import opened BigEndian
  import opened Wrappers
  import opened Protocol
  import opened Crypto
  import opened Frames
  import opened Mcu
  import McuRuns
  import Nonce
  import Fsm = McuFsm

  // A queued frame refers to its payload by pool buffer and length.
  datatype PendingTxFrame = PendingTxFrame(cmd: int, seqId: int, buffer: nat, length: nat)

  // The buffers of the pool, numbered from zero.
  function Ids(capacity: nat): set<nat>
  {
    if capacity == 0 then {} else Ids(capacity - 1) + {capacity - 1}
  }

  function Buffers(q: seq<PendingTxFrame>): set<nat> { set f | f in q :: f.buffer }

  predicate Distinct(q: seq<PendingTxFrame>)
  {
    forall i, j :: 0 <= i < j < |q| ==> q[i].buffer != q[j].buffer
  }

  // The payload bytes each queued frame stands for.
  function Queued(q: seq<PendingTxFrame>, store: map<nat, Bytes>): (r: seq<Pending>)
    requires forall f :: f in q ==> f.buffer in store && f.length <= |store[f.buffer]|
    ensures |r| == |q|
  {
    seq(|q|, i requires 0 <= i < |q| => Pending(q[i].cmd, q[i].seqId, store[q[i].buffer][..q[i].length]))
  }

  lemma {:induction false} IdsCount(capacity: nat)
    ensures |Ids(capacity)| == capacity
    ensures forall b :: b in Ids(capacity) ==> b < capacity
  {
    if capacity > 0 {
      IdsCount(capacity - 1);
    }
  }

  lemma {:induction false} BuffersCount(q: seq<PendingTxFrame>)
    requires Distinct(q)
    ensures |Buffers(q)| == |q|
  {
    if q != [] {
      var front, last := q[..|q| - 1], q[|q| - 1];
      BuffersCount(front);
      assert q == front + [last];
      assert Buffers(q) == Buffers(front) + {last.buffer};
    }
  }

  // Queued buffers are pairwise distinct and are exactly the allocated ones.
  predicate PoolOk(capacity: nat, q: seq<PendingTxFrame>, free: set<nat>, store: map<nat, Bytes>)
  {
    && store.Keys == Ids(capacity)
    && (forall b :: b in store ==> |store[b]| == MAX_PAYLOAD)
    && (forall f :: f in q ==> f.length <= MAX_PAYLOAD)
    && Distinct(q)
    && free !! Buffers(q)
    && free + Buffers(q) == Ids(capacity)
  }

  // Free and queued buffers add up to the capacity, so a buffer is free whenever the
  // queue is not full.
  lemma PoolAccounting(capacity: nat, q: seq<PendingTxFrame>, free: set<nat>, store: map<nat, Bytes>)
    requires PoolOk(capacity, q, free, store)
    ensures |free| + |q| == capacity
    ensures |q| < capacity <==> free != {}
  {
    BuffersCount(q);
    IdsCount(capacity);
    assert |free + Buffers(q)| == |free| + |Buffers(q)|;
  }

  // Writing a payload into a free buffer and queueing it leaves every other queued
  // payload as it was.
  lemma StoreAppends(capacity: nat, q: seq<PendingTxFrame>, free: set<nat>, store: map<nat, Bytes>,
                     b: nat, cmd: int, seqId: int, payload: Bytes)
    requires PoolOk(capacity, q, free, store) && b in free && |payload| <= MAX_PAYLOAD
    ensures var q' := q + [PendingTxFrame(cmd, seqId, b, |payload|)];
            var store' := store[b := payload + store[b][|payload|..]];
            && PoolOk(capacity, q', free - {b}, store')
            && Queued(q', store') == Queued(q, store) + [Pending(cmd, seqId, payload)]
  {
    var q' := q + [PendingTxFrame(cmd, seqId, b, |payload|)];
    var store' := store[b := payload + store[b][|payload|..]];
    assert Buffers(q') == Buffers(q) + {b} by {
      assert forall f :: f in q' <==> f in q || f == PendingTxFrame(cmd, seqId, b, |payload|);
    }
    forall i | 0 <= i < |q| ensures q[i].buffer != b {
      assert q[i] in q;
    }
    assert store'[b][..|payload|] == payload;
  }

  predicate Sorted(table: seq<(int, Kind)>)
  {
    forall i, j :: 0 <= i < j < |table| ==> table[i].0 < table[j].0
  }

  lemma LookupAt(table: seq<(int, Kind)>, cmd: int, k: nat)
    requires Sorted(table) && k < |table| && table[k].0 == cmd
    ensures Lookup(table, cmd) == Some(table[k].1)
  {
    if k > 0 {
      LookupAt(table[1..], cmd, k - 1);
    }
  }

  lemma LookupMisses(table: seq<(int, Kind)>, cmd: int)
    requires forall i :: 0 <= i < |table| ==> table[i].0 != cmd
    ensures Lookup(table, cmd) == None
  {
  }

  // Binary search over a sorted table returns what a linear scan returns.
  method FindHandler(table: seq<(int, Kind)>, cmd: int) returns (k: Option<Kind>)
    requires Sorted(table)
    ensures k == Lookup(table, cmd)
  {
    var left, right := 0, |table| - 1;
    while left <= right
      invariant 0 <= left <= right + 1 <= |table|
      invariant forall i :: 0 <= i < left ==> table[i].0 < cmd
      invariant forall i :: right < i < |table| ==> cmd < table[i].0
    {
      var mid := left + (right - left) / 2;
      if table[mid].0 == cmd {
        LookupAt(table, cmd, mid);
        return Some(table[mid].1);
      } else if table[mid].0 < cmd {
        left := mid + 1;
      } else {
        right := mid - 1;
      }
    }
    LookupMisses(table, cmd);
    return None;
  }

  // Ascending step by step is ascending throughout.
  lemma {:induction false} StepwiseSorted(table: seq<(int, Kind)>, n: nat)
    requires n <= |table| && forall i :: 0 <= i < |table| - 1 ==> table[i].0 < table[i + 1].0
    ensures Sorted(table[..n])
  {
    if n > 0 {
      StepwiseSorted(table, n - 1);
      if n > 1 {
        assert table[n - 2].0 < table[n - 1].0;
        assert forall i :: 0 <= i < n - 1 ==> table[..n - 1][i] == table[i];
      }
    }
  }

  lemma TableSorted()
    ensures Sorted(TABLE)
  {
    assert forall i :: 0 <= i < |TABLE| - 1 ==> TABLE[i].0 < TABLE[i + 1].0;
    StepwiseSorted(TABLE, |TABLE|);
    assert TABLE[..|TABLE|] == TABLE;
  }

  class BridgeClass {
    const platform: Platform
    var fsm: Fsm.State
    var sharedSecret: Bytes
    var sessionKey: Bytes
    var txNonceCounter: nat
    var rxNonceCounter: nat
    var txEnabled: bool
    var pendingTxQueue: seq<PendingTxFrame>
    var poolFree: set<nat>
    var poolStore: map<nat, Bytes>
    var retryCount: nat
    var retryLimit: nat
    var lastCommandId: int
    var rxHistory: seq<int>
    var wire: seq<Envelope>
    ghost var trace: Trace

    ghost predicate Valid()
      reads this
    {
      PoolOk(platform.capacity, pendingTxQueue, poolFree, poolStore)
    }

    ghost function State(): Mcu.State
      requires Valid()
      reads this
    {
      Mcu.State(fsm, sharedSecret, sessionKey, txNonceCounter, rxNonceCounter, txEnabled,
                Queued(pendingTxQueue, poolStore), retryCount, retryLimit, lastCommandId, rxHistory, wire, trace)
    }

    constructor (platform: Platform, secret: Bytes, selfTestsPass: bool)
      ensures Valid() && this.platform == platform
      ensures State() == Booted(secret, selfTestsPass)
    {
      this.platform := platform;
      fsm := Fsm.Startup;
      sharedSecret, sessionKey := [], [];
      txNonceCounter, rxNonceCounter, txEnabled := 0, 0, true;
      pendingTxQueue := [];
      poolFree := Ids(platform.capacity);
      poolStore := map b | b in Ids(platform.capacity) :: seq(MAX_PAYLOAD, _ => 0);
      retryCount, retryLimit, lastCommandId := 0, DEFAULT_RETRY_LIMIT, 0;
      rxHistory, wire, trace := [], [], Start;
      new;
      assert Buffers([]) == {};
      Begin(secret, selfTestsPass);
    }

    ghost method Note(e: Entry)
      requires Valid()
      modifies this`trace
      ensures Valid() && State() == Log(old(State()), e)
    {
      trace := Then(trace, e);
    }

    method Emit(e: Envelope)
      requires Valid()
      modifies this`wire
      ensures Valid() && State() == Send(old(State()), e)
    {
      wire := wire + [e];
    }

    method Receive(e: Fsm.Event)
      requires Valid()
      modifies this`fsm, this`trace
      ensures Valid() && State() == Move(old(State()), e)
    {
      var source := fsm;
      fsm := Fsm.OnEvent(source, e);
      Note(Moved(e, source, fsm));
      if fsm == Fsm.Fault && source != Fsm.Fault {
        Note(SafePins);
      }
    }

    method ClearPendingTxQueue()
      requires Valid()
      modifies this`poolFree, this`pendingTxQueue
      ensures Valid() && State() == old(State()).(queue := [])
      ensures poolFree == Ids(platform.capacity)
    {
      for i := 0 to |pendingTxQueue|
        invariant pendingTxQueue == old(pendingTxQueue)
        invariant poolFree == old(poolFree) + Buffers(pendingTxQueue[..i])
      {
        poolFree := poolFree + {pendingTxQueue[i].buffer};
        assert pendingTxQueue[..i + 1] == pendingTxQueue[..i] + [pendingTxQueue[i]];
        assert Buffers(pendingTxQueue[..i + 1]) == Buffers(pendingTxQueue[..i]) + {pendingTxQueue[i].buffer};
      }
      assert pendingTxQueue[..|pendingTxQueue|] == pendingTxQueue;
      pendingTxQueue := [];
      assert Buffers([]) == {};
    }

    method EnterSafeState()
      requires Valid()
      modifies this
      ensures Valid() && State() == Mcu.EnterSafeState(old(State()))
    {
      Note(SafePins);
      txEnabled := false;
      ClearPendingTxQueue();
      Receive(Fsm.Reset);
    }

    method Transmit(cmd: int, seqId: int, payload: Bytes)
      requires Valid()
      modifies this`txNonceCounter, this`wire, this`trace
      ensures Valid() && State() == Mcu.Transmit(platform, old(State()), cmd, seqId, payload)
    {
      var encrypt := Fsm.IsSynchronized(fsm) && sharedSecret != [] && !IsSystem(cmd);
      if encrypt {
        txNonceCounter := (txNonceCounter + 1) % U64;
        Note(Sealed(txNonceCounter));
        var nonce := Nonce.Firmware(txNonceCounter);
        var text := platform.crypto.seal(sessionKey, nonce, cmd, seqId, payload);
        if text.None? {
          return;
        }
        Emit(Envelope(cmd, seqId, nonce, Blob(text.value)));
      } else {
        Emit(Envelope(cmd, seqId, seq(NONCE_SIZE, _ => 0), Blob(payload)));
      }
    }

    method FlushPendingTxQueue()
      requires Valid()
      modifies this
      ensures Valid() && State() == Flush(platform, old(State()))
    {
      hide Move, Mcu.Transmit, PoolOk, Queued;
      if pendingTxQueue == [] || !txEnabled {
        return;
      }
      var f := pendingTxQueue[0];
      FrontPayload();
      lastCommandId := f.cmd;
      retryCount := 0;
      Receive(Fsm.SendCritical);
      Transmit(f.cmd, f.seqId, poolStore[f.buffer][..f.length]);
    }

    lemma FrontPayload()
      requires Valid() && pendingTxQueue != []
      ensures var f := pendingTxQueue[0];
              && f.buffer in poolStore && f.length <= |poolStore[f.buffer]|
              && State().queue != []
              && State().queue[0] == Pending(f.cmd, f.seqId, poolStore[f.buffer][..f.length])
    {
    }

    method RetransmitLastFrame()
      requires Valid()
      modifies this`txNonceCounter, this`wire, this`trace
      ensures Valid() && State() == Retransmit(platform, old(State()))
    {
      if pendingTxQueue == [] {
        return;
      }
      var f := pendingTxQueue[0];
      Transmit(f.cmd, f.seqId, poolStore[f.buffer][..f.length]);
    }

    method Begin(secret: Bytes, selfTestsPass: bool)
      requires Valid()
      modifies this
      ensures Valid() && State() == Mcu.Begin(old(State()), secret, selfTestsPass)
    {
      sharedSecret := Take(secret, 64);
      Receive(Fsm.Reset);
      if !selfTestsPass {
        EnterSafeState();
      }
      txEnabled := true;
    }

    // A buffer is taken from the pool, filled and queued.
    method PushPending(cmd: int, seqId: int, payload: Bytes)
      requires Valid() && |payload| <= MAX_PAYLOAD && |pendingTxQueue| < platform.capacity
      modifies this
      ensures Valid() && State() == Enqueue(platform, old(State()), Pending(cmd, seqId, payload))
    {
      hide Flush;
      FillBuffer(cmd, seqId, payload);
      if !Fsm.IsAwaitingAck(fsm) {
        FlushPendingTxQueue();
      }
    }

    method FillBuffer(cmd: int, seqId: int, payload: Bytes)
      requires Valid() && |payload| <= MAX_PAYLOAD && |pendingTxQueue| < platform.capacity
      modifies this`poolFree, this`poolStore, this`pendingTxQueue
      ensures Valid()
      ensures State() == old(State()).(queue := old(State()).queue + [Pending(cmd, seqId, payload)])
    {
      hide PoolOk, Queued;
      PoolAccounting(platform.capacity, pendingTxQueue, poolFree, poolStore);
      var buf :| buf in poolFree;
      StoreAppends(platform.capacity, pendingTxQueue, poolFree, poolStore, buf, cmd, seqId, payload);
      BufferKnown(buf);
      poolFree := poolFree - {buf};
      poolStore := poolStore[buf := payload + poolStore[buf][|payload|..]];
      pendingTxQueue := pendingTxQueue + [PendingTxFrame(cmd, seqId, buf, |payload|)];
    }

    lemma BufferKnown(buf: nat)
      requires Valid() && buf in poolFree
      ensures buf in poolStore && |poolStore[buf]| == MAX_PAYLOAD
    {
    }

    method SendFrame(cmd: int, seqId: int, payload: Bytes) returns (ok: bool)
      requires Valid()
      modifies this
      ensures Valid() && (State(), ok) == Mcu.SendFrame(platform, old(State()), cmd, seqId, payload)
    {
      if !txEnabled && !IsSystem(cmd) {
        return false;
      }
      if RequiresAck(cmd) {
        if |pendingTxQueue| >= platform.capacity {
          return false;
        }
        PushPending(cmd, seqId, Take(payload, MAX_PAYLOAD));
        return true;
      }
      Transmit(cmd, seqId, Take(payload, MAX_PAYLOAD));
      return true;
    }

    method SendSinglePass(cmd: int, seqId: int, body: Body) returns (ok: bool)
      requires Valid()
      modifies this`wire
      ensures Valid() && (State(), ok) == SendPlain(old(State()), cmd, seqId, body)
    {
      if !txEnabled && !IsSystem(cmd) {
        return false;
      }
      Emit(Envelope(cmd, seqId, [], body));
      return true;
    }

    method SendMessage(cmd: int, seqId: int, body: Body, encoded: Option<Bytes>) returns (ok: bool)
      requires Valid()
      modifies this
      ensures Valid() && (State(), ok) == Mcu.SendMessage(platform, old(State()), cmd, seqId, body, encoded)
    {
      if !(Fsm.IsSynchronized(fsm) && sharedSecret != [] && !IsSystem(cmd)) {
        ok := SendSinglePass(cmd, seqId, body);
        return;
      }
      if RequiresAck(cmd) {
        if |pendingTxQueue| >= platform.capacity || encoded.None? {
          return false;
        }
        PushPending(cmd, seqId, Take(encoded.value, MAX_PAYLOAD));
        return true;
      }
      if encoded.None? {
        return false;
      }
      Transmit(cmd, seqId, Take(encoded.value, MAX_PAYLOAD));
      return true;
    }

    method EmitStatus(code: int)
      requires Valid()
      modifies this
      ensures Valid() && State() == Mcu.EmitStatus(platform, old(State()), code)
    {
      var ok := SendFrame(code, 0, []);
      if !ok {
        EnterSafeState();
      }
    }

    method ProcessAck(cmd: int, seqId: int)
      requires Valid()
      modifies this`wire
      ensures Valid() && State() == Acknowledge(old(State()), cmd, seqId)
    {
      var _ := SendSinglePass(STATUS_ACK, seqId, Ack(cmd));
    }

    method RunSends(ops: seq<SendOp>)
      requires Valid()
      modifies this
      ensures Valid() && State() == ApplyAll(platform, old(State()), ops)
      decreases |ops|
    {
      if ops != [] {
        match ops[0] {
          case Frame(cmd, seqId, payload) => var _ := SendFrame(cmd, seqId, payload);
          case Packet(cmd, seqId, body, encoded) => var _ := SendMessage(cmd, seqId, body, encoded);
        }
        RunSends(ops[1..]);
      }
    }

    method OnAckTimeout()
      requires Valid()
      modifies this
      ensures Valid() && State() == AckTimeout(platform, old(State()))
      ensures old(fsm) != Fsm.Fault && fsm == Fsm.Fault ==> poolFree == Ids(platform.capacity)
    {
      hide PoolOk, Queued, Retransmit, Move;
      if !Fsm.IsAwaitingAck(fsm) {
        return;
      }
      retryCount := (retryCount + 1) % 256;
      if retryCount >= retryLimit {
        Receive(Fsm.Timeout);
        txEnabled := false;
        ClearPendingTxQueue();
        return;
      }
      RetransmitLastFrame();
    }

    method HandleAck(cmd: int)
      requires Valid()
      modifies this
      ensures Valid() && State() == Mcu.HandleAck(platform, old(State()), cmd)
    {
      if !Fsm.IsAwaitingAck(fsm) || cmd != lastCommandId {
        return;
      }
      ClearPendingTxQueue();
      Receive(Fsm.AckReceived);
      FlushPendingTxQueue();
    }

    method OnHandshakeTimeout()
      requires Valid()
      modifies this
      ensures Valid() && State() == HandshakeTimeout(old(State()))
    {
      if Fsm.IsSynchronized(fsm) {
        return;
      }
      Receive(Fsm.Timeout);
      txEnabled := false;
    }

    method OnRxDedupe()
      requires Valid()
      modifies this
      ensures Valid() && State() == RxDedupe(old(State()))
    {
      rxHistory := [];
      Note(HistoryCleared);
    }

    method AdoptSession(nonce: Bytes)
      requires Valid()
      modifies this`sessionKey, this`txNonceCounter, this`rxNonceCounter, this`trace
      ensures Valid()
      ensures State() == Log(old(State()).(key := platform.crypto.sessionKey(sharedSecret, nonce), tx := 0, rx := 0), SyncAccepted(nonce))
    {
      hide PoolOk, Queued;
      sessionKey := platform.crypto.sessionKey(sharedSecret, nonce);
      txNonceCounter := 0;
      rxNonceCounter := 0;
      Note(SyncAccepted(nonce));
    }

    method HandleLinkSync(seqId: int, nonce: Bytes, tag: Bytes)
      requires Valid()
      modifies this
      ensures Valid() && State() == Mcu.HandleLinkSync(platform, old(State()), seqId, nonce, tag)
    {
      hide Mcu.EmitStatus, Mcu.SendMessage, Move, PoolOk, Queued, Take;
      var n := Take(nonce, HANDSHAKE_NONCE_LENGTH);
      var reply: Bytes := [];
      if sharedSecret != [] {
        var expected := platform.crypto.tag(sharedSecret, n);
        if tag == [] || tag == expected {
          reply := expected;
          AdoptSession(n);
        } else {
          Receive(Fsm.HandshakeFailed);
          EmitStatus(STATUS_ERROR);
          return;
        }
      }
      Receive(Fsm.HandshakeStart);
      Receive(Fsm.HandshakeComplete);
      var _ := SendMessage(CMD_LINK_SYNC_RESP, seqId, Sync(n, reply), None);
    }

    method HandleLinkReset(env: Envelope)
      requires Valid()
      modifies this
      ensures Valid() && State() == Mcu.HandleLinkReset(platform, old(State()), env)
    {
      var limit := ConfigOf(platform, env.body);
      if limit.Some? {
        retryLimit := limit.value % 256;
      }
      Receive(Fsm.Reset);
      var _ := SendFrame(CMD_LINK_RESET_RESP, env.seqId, []);
    }

    method RunHandler(k: Kind, env: Envelope, fx: Effects)
      requires Valid()
      modifies this
      ensures Valid() && State() == Mcu.RunHandler(platform, old(State()), k, env, fx)
    {
      hide Mcu.EmitStatus, ApplyAll, Mcu.HandleAck, Mcu.HandleLinkSync, Mcu.HandleLinkReset;
      var typed := !(k.LinkReset? || k.Xoff? || k.Xon? || k.Query? || (k.Service? && !k.typed));
      var ack := match env.body case Ack(cmd) => Some(cmd) case Blob(data) => platform.decodeAck(data) case _ => None;
      var sync := match env.body
        case Sync(nonce, tag) => Some((nonce, tag))
        case Blob(data) => platform.decodeSync(data)
        case _ => None;
      var decoded := if k.StatusAck? then ack.Some? else if k.LinkSync? then sync.Some? else fx.decodes;
      if typed && !decoded {
        EmitStatus(STATUS_MALFORMED);
        return;
      }
      Note(Handled(env.cmd, env.seqId, !k.Unrouted?));
      match k {
        case StatusAck => HandleAck(ack.value);
        case LinkSync => HandleLinkSync(env.seqId, sync.value.0, sync.value.1);
        case LinkReset => HandleLinkReset(env);
        case Xoff => txEnabled := false;
        case Xon => txEnabled := true;
        case _ => RunSends(fx.sends);
      }
    }

    method DispatchCmd(k: Kind, env: Envelope, dup: bool, fx: Effects)
      requires Valid()
      modifies this
      ensures Valid() && State() == Route(platform, old(State()), k, env, dup, fx)
    {
      hide Mcu.RunHandler;
      if !k.Unrouted? {
        if NeedsAck(k) {
          ProcessAck(env.cmd, env.seqId);
        }
        if dup {
          if RepeatsOnDuplicate(k) {
            RetransmitLastFrame();
          }
          return;
        }
      }
      RunHandler(k, env, fx);
    }

    method NoteArrival(seqId: int) returns (dup: bool)
      requires Valid()
      modifies this`rxHistory, this`trace
      ensures Valid() && dup == (seqId in old(rxHistory))
      ensures var s0 := Log(old(State()), Arrived(seqId, dup));
              State() == if dup then s0 else s0.(history := Remember(platform, old(rxHistory), seqId))
    {
      dup := seqId in rxHistory;
      if !dup {
        if |rxHistory| >= platform.historySize && rxHistory != [] {
          rxHistory := rxHistory[1..];
        }
        rxHistory := rxHistory + [seqId];
      }
      Note(Arrived(seqId, dup));
    }

    method DispatchCommand(env: Envelope, fx: Effects)
      requires Valid()
      modifies this
      ensures Valid() && State() == Dispatch(platform, old(State()), env, fx)
    {
      hide Route, ApplyAll, Mcu.EmitStatus, Mcu.SendFrame, Mcu.EnterSafeState, Acknowledge, Lookup, PoolOk, Queued, Sorted, Remember;
      var dup := NoteArrival(env.seqId);
      if !(sharedSecret == [] || IsSystem(env.cmd) || Fsm.IsSynchronized(fsm)) {
        var _ := SendFrame(STATUS_ERROR, env.seqId, []);
        return;
      }
      if env.cmd == STATUS_OK {
        ProcessAck(env.cmd, env.seqId);
        return;
      }
      if env.cmd == STATUS_MALFORMED {
        EnterSafeState();
        return;
      }
      TableSorted();
      var handler := FindHandler(TABLE, env.cmd);
      if handler.Some? {
        DispatchCmd(handler.value, env, dup, fx);
      } else if fx.userHandler {
        Note(Handled(env.cmd, env.seqId, false));
        RunSends(fx.sends);
      } else {
        EmitStatus(STATUS_ERROR);
      }
    }

    method HandleReceivedFrame(frame: Option<Envelope>, fx: Effects)
      requires Valid()
      modifies this
      ensures Valid() && State() == Mcu.Receive(platform, old(State()), frame, fx)
    {
      hide Dispatch, Mcu.EmitStatus;
      if frame.None? {
        EmitStatus(STATUS_MALFORMED);
        return;
      }
      var env := frame.value;
      if Fsm.IsSynchronized(fsm) && sharedSecret != [] && !IsSystem(env.cmd) {
        if |Cipher(env)| < TAG_LENGTH {
          EmitStatus(STATUS_ERROR);
          return;
        }
        var text := platform.crypto.open(sessionKey, NonceField(env), env.cmd, env.seqId, Cipher(env));
        if text.None? {
          EmitStatus(STATUS_ERROR);
          return;
        }
        var (newer, counter) := Nonce.ValidateFrame(NonceField(env), rxNonceCounter);
        if !newer {
          EmitStatus(STATUS_ERROR);
          return;
        }
        rxNonceCounter := counter;
        Note(Opened(counter));
        env := env.(body := Blob(text.value));
      }
      DispatchCommand(env, fx);
    }

    // Whatever the outside does next: a frame, a call of the sketch, a timer.
    method Step(i: Input)
      requires Valid()
      modifies this
      ensures Valid() && State() == Mcu.Step(platform, old(State()), i)
    {
      hide PoolOk, Queued, Mcu.Receive, Mcu.SendFrame, Mcu.SendMessage, AckTimeout, Mcu.EnterSafeState, Mcu.Begin;
      match i {
        case Incoming(frame, fx) => HandleReceivedFrame(frame, fx);
        case App(Frame(cmd, seqId, payload)) => var _ := SendFrame(cmd, seqId, payload);
        case App(Packet(cmd, seqId, body, encoded)) => var _ := SendMessage(cmd, seqId, body, encoded);
        case AckTimer => OnAckTimeout();
        case HandshakeTimer => OnHandshakeTimeout();
        case DedupeTimer => OnRxDedupe();
        case Unsafe => EnterSafeState();
        case Restart(secret, ok) => Begin(secret, ok);
      }
    }

    // A run of the object is a run of the model: every reachable object is the one its history
    // describes, its queue is in order, and free and queued buffers make the capacity.
    method Drive(inputs: seq<Input>)
      requires Valid() && McuRuns.Good(platform, false, State())
      modifies this
      ensures Valid() && State() == Run(platform, old(State()), inputs)
      ensures McuRuns.Good(platform, false, State())
      ensures |poolFree| + |pendingTxQueue| == platform.capacity
    {
      hide PoolOk, Queued, Mcu.Step, McuRuns.Good;
      for k := 0 to |inputs|
        invariant Valid() && State() == Run(platform, old(State()), inputs[..k])
        invariant McuRuns.Good(platform, false, State())
      {
        McuRuns.StepGood(platform, false, State(), inputs[k]);
        Step(inputs[k]);
        assert inputs[..k + 1][..k] == inputs[..k];
      }
      assert inputs[..|inputs|] == inputs;
      PoolAccounting(platform.capacity, pendingTxQueue, poolFree, poolStore);
    }
  }

  // From power-up, for every input: the object and the model stay in step, with all that is
  // proved of reachable states.
  method PowerUp(platform: Platform, secret: Bytes, selfTestsPass: bool, inputs: seq<Input>) returns (b: BridgeClass)
    requires platform.historySize > 0
    ensures b.platform == platform && b.Valid() && b.State() == Run(platform, Booted(secret, selfTestsPass), inputs)
    ensures McuRuns.Good(platform, false, b.State())
    ensures |b.poolFree| + |b.pendingTxQueue| == platform.capacity
  {
    hide PoolOk, Queued, Mcu.Step, McuRuns.Good, Booted;
    b := new BridgeClass(platform, secret, selfTestsPass);
    McuRuns.Reachable(platform, false, secret, selfTestsPass, []);
    b.Drive(inputs);
  }
}
