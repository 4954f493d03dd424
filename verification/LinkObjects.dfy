// The two objects joined by their channels: a run of both is a run of the pair.
module LinkObjects {
  import opened BigEndian
  import opened Wrappers
  import opened Protocol
  import opened Crypto
  import opened Frames
  import Daemon
  import Mcu
  import L = Link
  import M = BridgeClass
  import H = HandshakeManager

  function Threshold(fatalFailures: int): nat { if fatalFailures < 1 then 1 else fatalFailures }

  class SerialLink {
    const d: H.SerialHandshakeManager
    const m: M.BridgeClass

    ghost predicate Valid()
      reads this, d, d.state, m
    {
      d.Valid() && m.Valid() && d.crypto == m.platform.crypto
    }

    ghost function State(): L.Pair
      requires Valid()
      reads this, d, d.state, m
    {
      L.Pair(d.State(), m.State())
    }

    constructor (platform: Mcu.Platform, ds: Bytes, ms: Bytes, fatalFailures: int, selfTestsPass: bool)
      ensures Valid() && fresh(d) && fresh(d.state) && fresh(m) && m.platform == platform
      ensures State() == L.Initial(ds, ms, Threshold(fatalFailures), selfTestsPass)
    {
      hide Daemon.Coherent, M.PoolOk, M.Queued, Mcu.Booted;
      var state := new H.RuntimeState();
      d := new H.SerialHandshakeManager(platform.crypto, state, ds, fatalFailures);
      m := new M.BridgeClass(platform, ms, selfTestsPass);
    }

    // The daemon takes frame env: checks, then the handler of a sync response.
    method Hear(env: Envelope, throttled: bool)
      requires Valid()
      modifies d, d.state
      ensures Valid() && State() == old(State()).(d := L.Hear(d.crypto, old(d.State()), env, throttled))
    {
      hide Daemon.Coherent, Daemon.OnSyncResp, Daemon.ProcessPacket, Daemon.Matches, Daemon.Entered, M.PoolOk, M.Queued;
      var ok := d.ProcessPacket(env);
      if ok && env.cmd == CMD_LINK_SYNC_RESP {
        var _ := d.HandleLinkSyncResp(L.SyncFields(env.body), throttled);
      }
    }

    // Only the wires change.
    method SetPort(wire: seq<Envelope>)
      requires Valid()
      modifies d`port
      ensures Valid() && State() == old(State()).(d := old(d.State()).(wire := wire))
    {
      d.port := wire;
    }

    method SetWire(wire: seq<Envelope>)
      requires Valid()
      modifies m`wire
      ensures Valid() && State() == old(State()).(m := old(m.State()).(wire := wire))
    {
      m.wire := wire;
    }

    method Step(e: L.Event)
      requires Valid()
      modifies d, d.state, m
      ensures Valid() && State() == L.Step(m.platform, old(State()), e)
    {
      hide Daemon.Coherent, Daemon.Step, Mcu.Step, Mcu.Receive, L.Hear, M.PoolOk, M.Queued;
      match e {
        case DaemonStep(e) => d.Step(e);
        case McuStep(i) => m.Step(i);
        case ToMcu(fx) =>
          if d.port != [] {
            var f := d.port[0];
            SetPort(d.port[1..]);
            m.HandleReceivedFrame(Some(f), fx);
          }
        case ToDaemon(k, keep, throttled) =>
          if k < |m.wire| {
            var f := m.wire[k];
            Hear(f, throttled);
            if !keep { SetWire(L.Drop(m.wire, k)); }
          }
        case LoseToMcu(k) => SetPort(L.Drop(d.port, k));
        case LoseToDaemon(k) => SetWire(L.Drop(m.wire, k));
      }
    }

    method Drive(events: seq<L.Event>)
      requires Valid()
      modifies d, d.state, m
      ensures Valid() && State() == L.Run(m.platform, old(State()), events)
    {
      hide Daemon.Coherent, L.Step, M.PoolOk, M.Queued;
      for k := 0 to |events|
        invariant Valid() && State() == L.Run(m.platform, old(State()), events[..k])
      {
        Step(events[k]);
        assert events[..k + 1][..k] == events[..k];
      }
      assert events[..|events|] == events;
    }
  }

  // Agreement, of the objects: after any legal sequence of events, a daemon object whose link is
  // synchronised holds the key of the firmware object.
  method Connect(p: Mcu.Platform, ds: Bytes, ms: Bytes, fatalFailures: int, ok: bool, events: seq<L.Event>) returns (w: SerialLink)
    requires p.crypto.Correct() && L.Legal(p, L.Initial(ds, ms, Threshold(fatalFailures), ok), events)
    requires L.Compatible(p.crypto, ds, Take(ms, 64))
    ensures w.Valid() && w.State() == L.Run(p, L.Initial(ds, ms, Threshold(fatalFailures), ok), events)
    ensures w.d.state.state == Daemon.Synced ==> w.d.fsmState == Daemon.Synchronized && w.d.state.linkSessionKey == Some(w.m.sessionKey)
  {
    hide Daemon.Coherent, L.Run, L.Legal, L.Compatible, M.PoolOk, M.Queued, L.Initial;
    w := new SerialLink(p, ds, ms, fatalFailures, ok);
    w.Drive(events);
    L.Agreement(p, ds, ms, Threshold(fatalFailures), ok, events);
  }
}
