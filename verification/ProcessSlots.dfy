// The slots of running subprocesses: a semaphore and a table, released by four paths.
module ProcessSlots {
  import opened Wrappers

  // Launches are numbered as they acquire a slot. `launching` have no table entry yet;
  // `leaked` can no longer give their slot back; `released` lists who did, in order.
  datatype State = State(
    max: nat,
    free: nat,
    running: map<nat, nat>,
    begun: nat,
    launching: set<nat>,
    released: seq<nat>,
    leaked: set<nat>)

  function Begin(s: State): State
    requires s.free > 0
  {
    s.(free := s.free - 1, begun := s.begun + 1, launching := s.launching + {s.begun})
  }

  function Masked(osPid: nat): nat { osPid % 0x10000 }

  // The table is keyed by the low 16 bits, so a live entry may be overwritten.
  function Launched(s: State, id: nat, osPid: nat): State
  {
    var pid := Masked(osPid);
    s.(launching := s.launching - {id}, running := s.running[pid := id],
       leaked := s.leaked + (if pid in s.running then {s.running[pid]} else {}))
  }

  // Only an OSError gives the slot back.
  function LaunchFailed(s: State, id: nat, osError: bool): State
  {
    var s1 := s.(launching := s.launching - {id});
    if osError then s1.(free := s.free + 1, released := s.released + [id])
    else s1.(leaked := s.leaked + {id})
  }

  // The common end of poll, monitor and both kill paths.
  function Retire(s: State, pid: nat): State
  {
    if pid !in s.running then s
    else s.(running := s.running - {pid}, free := s.free + 1, released := s.released + [s.running[pid]])
  }

  // ---- In place ----

  class ProcessTable {
    const max: nat
    var slots: nat
    var runningProcesses: map<nat, nat>
    var begun: nat         // names the next launch
    ghost var launching: set<nat>
    ghost var released: seq<nat>
    ghost var leaked: set<nat>

    ghost function View(): State
      reads this
    {
      State(max, slots, runningProcesses, begun, launching, released, leaked)
    }

    constructor (maxConcurrent: nat)
      ensures View() == Initial(maxConcurrent)
    {
      max, slots, runningProcesses := maxConcurrent, maxConcurrent, map[];
      begun, launching, released, leaked := 0, {}, [], {};
    }

    // The semaphore lets a launch in only while a slot is free.
    method Acquire() returns (id: nat)
      requires slots > 0
      modifies this
      ensures id == old(begun) && View() == Begin(old(View()))
    {
      slots := slots - 1;
      id := begun;
      launching := launching + {id};
      begun := begun + 1;
    }

    // The rest of _run_process once the spawn has ended: a pid, or the error it raised.
    method FinishLaunch(id: nat, spawned: Option<nat>, osError: bool) returns (pid: nat)
      modifies this
      ensures spawned.Some? ==> pid == Masked(spawned.value) && View() == Launched(old(View()), id, spawned.value)
      ensures spawned.None? ==> pid == 0 && View() == LaunchFailed(old(View()), id, osError)
    {
      launching := launching - {id};
      if spawned == None {
        if osError {
          slots := slots + 1;
          released := released + [id];
        } else {
          leaked := leaked + {id};
        }
        return 0;
      }
      pid := spawned.value % 0x10000;
      leaked := leaked + (if pid in runningProcesses then {runningProcesses[pid]} else {});
      runningProcesses := runningProcesses[pid := id];
    }

    method PopAndRelease(pid: nat)
      modifies this
      ensures View() == Retire(old(View()), pid)
    {
      if pid in runningProcesses {
        released := released + [runningProcesses[pid]];
        runningProcesses := runningProcesses - {pid};
        slots := slots + 1;
      }
    }

    // _poll_process: the entry goes once the process has ended and both pipes are drained.
    method Poll(pid: nat, finished: bool, drained: bool) returns (found: bool)
      modifies this
      ensures found == (pid in old(runningProcesses))
      ensures View() == if finished && drained then Retire(old(View()), pid) else old(View())
    {
      found := pid in runningProcesses;
      if found && finished && drained {
        PopAndRelease(pid);
      }
    }
  }

  // ---- All interleavings ----

  // End is the pop at the end of a poll, of the monitor and of either kill. Each looks the entry up
  // first and may be suspended in between, so it may come at any time, for any pid.
  datatype Event =
    | Start
    | Spawned(id: nat, osPid: nat)
    | SpawnFailed(id: nat, osError: bool)
    | End(pid: nat)

  function Step(s: State, e: Event): State
  {
    match e
    case Start => if s.free > 0 then Begin(s) else s
    case Spawned(id, osPid) => if id in s.launching then Launched(s, id, osPid) else s
    case SpawnFailed(id, osError) => if id in s.launching then LaunchFailed(s, id, osError) else s
    case End(pid) => Retire(s, pid)
  }

  function Initial(max: nat): State { State(max, max, map[], 0, {}, [], {}) }

  function Run(max: nat, events: seq<Event>): State
    decreases |events|
  {
    if events == [] then Initial(max) else Step(Run(max, events[..|events| - 1]), events[|events| - 1])
  }

  predicate NoRepeats(s: seq<nat>) { forall i, j :: 0 <= i < j < |s| ==> s[i] != s[j] }

  // Where a launch can be: exactly one of these four places.
  predicate Placed(s: State, id: nat)
  {
    var inTable := id in s.running.Values;
    if id in s.launching then !inTable && id !in s.released && id !in s.leaked
    else if inTable then id !in s.released && id !in s.leaked
    else if id in s.released then id !in s.leaked
    else id in s.leaked
  }

  predicate Sum(s: State) { s.free + |s.running| + |s.launching| + |s.leaked| == s.max }

  predicate Known(s: State)
  {
    && (forall id :: id in s.launching ==> id < s.begun)
    && (forall id :: id in s.released ==> id < s.begun)
    && (forall id :: id in s.leaked ==> id < s.begun)
    && (forall id :: id in s.running.Values ==> id < s.begun)
  }

  // No launch is in the table twice.
  predicate Injective(m: map<nat, nat>)
  {
    forall p, q :: p in m && q in m && m[p] == m[q] ==> p == q
  }

  predicate AllPlaced(s: State) { forall id: nat :: id < s.begun ==> Placed(s, id) }

  predicate Slots(s: State)
  {
    Sum(s) && AllPlaced(s) && Known(s) && Injective(s.running) && NoRepeats(s.released)
  }

  lemma BeginSlots(s: State)
    requires Slots(s) && s.free > 0
    ensures Slots(Begin(s))
  {
    var s' := Begin(s);
    forall id: nat | id < s'.begun ensures Placed(s', id) {
      if id < s.begun { assert Placed(s, id); }
    }
  }

  lemma LaunchedPlaces(s: State, id: nat, osPid: nat, i: nat)
    requires AllPlaced(s) && Injective(s.running) && Known(s) && id in s.launching && i < s.begun
    ensures Placed(Launched(s, id, osPid), i)
  {
    hide Injective;
    var pid := Masked(osPid);
    assert Placed(s, id) && Placed(s, i);
    if pid in s.running {
      assert s.running[pid] in s.running.Values && Placed(s, s.running[pid]);
    }
    ValuesAfterPut(s.running, pid, id, i);
  }

  lemma LaunchedSum(s: State, id: nat, osPid: nat)
    requires Sum(s) && AllPlaced(s) && Known(s) && id in s.launching
    ensures Sum(Launched(s, id, osPid))
  {
    var pid := Masked(osPid);
    if pid in s.running {
      assert s.running[pid] in s.running.Values && Placed(s, s.running[pid]);
      assert s.running[pid := id].Keys == s.running.Keys;
    } else {
      assert s.running[pid := id].Keys == s.running.Keys + {pid};
    }
  }

  lemma LaunchedSlots(s: State, id: nat, osPid: nat)
    requires Slots(s) && id in s.launching
    ensures Slots(Launched(s, id, osPid))
  {
    hide Sum, NoRepeats, Injective, Placed;
    var s', pid := Launched(s, id, osPid), Masked(osPid);
    LaunchedSum(s, id, osPid);
    forall i: nat | i < s'.begun ensures Placed(s', i) {
      LaunchedPlaces(s, id, osPid, i);
    }
    NotListed(s, id);
    PutInjective(s.running, pid, id);
    forall i | i in s'.running.Values || i in s'.leaked ensures i < s.begun {
      ValuesAfterPut(s.running, pid, id, i);
      assert pid in s.running ==> s.running[pid] in s.running.Values;
    }
  }

  lemma NotListed(s: State, id: nat)
    requires AllPlaced(s) && Known(s) && id in s.launching
    ensures id !in s.running.Values
  {
    assert Placed(s, id);
  }

  lemma PutInjective(m: map<nat, nat>, pid: nat, id: nat)
    requires Injective(m) && id !in m.Values
    ensures Injective(m[pid := id])
  {
    forall p | p in m ensures m[p] != id {
      assert m[p] in m.Values;
    }
  }

  // Who is in the table after one entry is written, given that no launch is in it twice.
  lemma ValuesAfterPut(m: map<nat, nat>, pid: nat, id: nat, i: nat)
    requires Injective(m)
    ensures i in m[pid := id].Values <==> i == id || (i in m.Values && !(pid in m && m[pid] == i))
  {
    var m' := m[pid := id];
    assert m'[pid] == id;
    if i in m.Values && !(pid in m && m[pid] == i) {
      var p :| p in m && m[p] == i;
      assert m'[p] == i;
    }
  }

  lemma ValuesAfterDrop(m: map<nat, nat>, pid: nat, i: nat)
    requires Injective(m)
    requires pid in m
    ensures i in (m - {pid}).Values <==> i in m.Values && m[pid] != i
  {
    var m' := m - {pid};
    if i in m.Values && m[pid] != i {
      var p :| p in m && m[p] == i;
      assert p in m' && m'[p] == i;
    }
  }

  lemma FailedSlots(s: State, id: nat, osError: bool)
    requires Slots(s) && id in s.launching
    ensures Slots(LaunchFailed(s, id, osError))
  {
    var s' := LaunchFailed(s, id, osError);
    assert Placed(s, id);
    forall i: nat | i < s'.begun ensures Placed(s', i) {
      assert Placed(s, i);
    }
  }

  lemma RetireSlots(s: State, pid: nat)
    requires Slots(s) && pid in s.running
    ensures Slots(Retire(s, pid))
  {
    var s', id := Retire(s, pid), s.running[pid];
    assert id in s.running.Values && Placed(s, id);
    assert s'.running.Keys == s.running.Keys - {pid};
    forall i: nat | i < s'.begun ensures Placed(s', i) {
      assert Placed(s, i);
      ValuesAfterDrop(s.running, pid, i);
    }
    forall i | i in s'.running.Values ensures i < s.begun {
      ValuesAfterDrop(s.running, pid, i);
    }
  }

  lemma StepSlots(s: State, e: Event)
    requires Slots(s)
    ensures Slots(Step(s, e))
  {
    hide Slots;
    match e
    case Start => if s.free > 0 { BeginSlots(s); }
    case Spawned(id, osPid) => if id in s.launching { LaunchedSlots(s, id, osPid); }
    case SpawnFailed(id, osError) => if id in s.launching { FailedSlots(s, id, osError); }
    case End(pid) => if pid in s.running { RetireSlots(s, pid); }
  }

  // For every interleaving: free slots, table entries, launches in progress and leaked slots
  // add up to the maximum; every launch is in exactly one place, and no slot is released twice.
  lemma {:induction false} SlotLaw(max: nat, events: seq<Event>)
    ensures Slots(Run(max, events)) && Run(max, events).max == max
    decreases |events|
  {
    if events != [] {
      SlotLaw(max, events[..|events| - 1]);
      StepSlots(Run(max, events[..|events| - 1]), events[|events| - 1]);
    }
  }

  // A launch that fails with anything but an OSError, or whose masked pid is a live key.
  predicate Leaks(s: State, e: Event)
  {
    match e
    case Spawned(id, osPid) => id in s.launching && Masked(osPid) in s.running
    case SpawnFailed(id, osError) => id in s.launching && !osError
    case _ => false
  }

  predicate NeverLeaks(max: nat, events: seq<Event>)
    decreases |events|
  {
    events == [] ||
    (NeverLeaks(max, events[..|events| - 1]) && !Leaks(Run(max, events[..|events| - 1]), events[|events| - 1]))
  }

  // The law holds without the leaked term exactly for the runs in which neither happens.
  lemma {:induction false} LeakFreeIff(max: nat, events: seq<Event>)
    ensures var s := Run(max, events);
            s.free + |s.running| + |s.launching| == max <==> NeverLeaks(max, events)
    decreases |events|
  {
    hide Placed;
    SlotLaw(max, events);
    if events != [] {
      var front := events[..|events| - 1];
      LeakFreeIff(max, front);
      SlotLaw(max, front);
      LeakStep(Run(max, front), events[|events| - 1]);
    }
  }

  lemma LeakStep(s: State, e: Event)
    ensures s.leaked <= Step(s, e).leaked
    ensures Leaks(s, e) ==> Step(s, e).leaked != {}
    ensures !Leaks(s, e) ==> Step(s, e).leaked == s.leaked
  {
  }

  // What each event does to the slots: a launch takes one while one is free; a process enters the
  // table under its masked pid; an OSError gives the slot back; and ending an entry that is there
  // removes it and gives its slot back, for exactly that launch.
  lemma EventsDo(s: State, e: Event)
    ensures var s' := Step(s, e);
            match e
            case Start => if s.free > 0 then s'.free == s.free - 1 && s.begun in s'.launching else s' == s
            case Spawned(id, osPid) => id in s.launching ==>
              id !in s'.launching && Masked(osPid) in s'.running && s'.running[Masked(osPid)] == id && s'.free == s.free
            case SpawnFailed(id, osError) => id in s.launching ==>
              id !in s'.launching && s'.free == s.free + (if osError then 1 else 0)
            case End(pid) =>
              if pid in s.running then pid !in s'.running && s'.free == s.free + 1 && s'.released == s.released + [s.running[pid]]
              else s' == s
  {
  }

  // Ending every entry of the table, one after the other.
  function EndAll(s: State, pids: seq<nat>): State
    decreases |pids|
  {
    if pids == [] then s else EndAll(Step(s, End(pids[0])), pids[1..])
  }

  // Once every live entry has been ended, only launches in progress and leaks keep slots.
  lemma {:induction false} AllSlotsReturn(s: State, pids: seq<nat>)
    requires Slots(s) && forall p :: p in s.running ==> p in pids
    ensures var s' := EndAll(s, pids);
            s'.running == map[] && s'.free + |s.launching| + |s.leaked| == s.max
    decreases |pids|
  {
    if pids == [] {
      assert s.running == map[];
    } else {
      var s1 := Step(s, End(pids[0]));
      StepSlots(s, End(pids[0]));
      forall p | p in s1.running ensures p in pids[1..] {
        assert p in s.running && p != pids[0];
      }
      AllSlotsReturn(s1, pids[1..]);
    }
  }
}
