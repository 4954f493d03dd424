// The one pending command of the transport, under its flow lock: any number of tasks that send
// with tracking, send without, or reset, interleaved at every step.
module FlowLock {
  import opened Wrappers
  import opened Transport

  datatype Exit = Returned | Fatal | Exhausted | Cancelled

  datatype Task =
    | Idle
    | Raw                                            // an untracked send: no lock
    | Queued(reset: bool)                            // waiting for the lock
    | Entered                                        // in the lock, _current not yet set
    | Running(attempts: nat, heard: seq<Arrival>)    // its attempts, suspended again and again
    | Leaving(exit: Exit)                            // an exit is taken, the finally clause is not run
    | Clearing                                       // the finally clause is run, the lock is still held
    | Resetting                                      // reset() in the lock

  // current: the task whose command _current is. interrupted: commands that reset() failed.
  datatype Flow = Flow(tasks: seq<Task>, holder: Option<nat>, current: Option<nat>, interrupted: nat)

  datatype Event =
    | BeginTracked(i: nat) | BeginRaw(i: nat) | BeginReset(i: nat)
    | EndRaw(i: nat)
    | Grant(i: nat)
    | SetCurrent(i: nat)
    | NextAttempt(i: nat)
    | Take(i: nat, exit: Exit)
    | Finally(i: nat)
    | Release(i: nat)
    | ResetBody(i: nat)
    | Cancel(i: nat)
    | Frame(f: Arrival)

  function Put(s: Flow, i: nat, t: Task): Flow
    requires i < |s.tasks|
  {
    s.(tasks := s.tasks[i := t])
  }

  // What task i does next, if the event fits its state.
  function Act(s: Flow, e: Event, i: nat): Flow
    requires i < |s.tasks|
  {
    match (e, s.tasks[i])
    case (BeginTracked(_), Idle) => Put(s, i, Queued(false))
    case (BeginRaw(_), Idle) => Put(s, i, Raw)
    case (BeginReset(_), Idle) => Put(s, i, Queued(true))
    case (EndRaw(_), Raw) => Put(s, i, Idle)
    case (Grant(_), Queued(reset)) =>
      if s.holder.Some? then s else Put(s, i, if reset then Resetting else Entered).(holder := Some(i))
    case (SetCurrent(_), Entered) => Put(s, i, Running(0, [])).(current := Some(i))
    case (NextAttempt(_), Running(n, heard)) => Put(s, i, Running(n + 1, heard))
    case (Take(_, exit), Running(_, _)) => Put(s, i, Leaving(exit))
    case (Finally(_), Leaving(_)) => Put(s, i, Clearing).(current := None)
    case (Release(_), Clearing) => Put(s, i, Idle).(holder := None)
    case (ResetBody(_), Resetting) =>
      Put(s, i, Clearing).(current := None, interrupted := s.interrupted + if s.current.Some? then 1 else 0)
    case (Cancel(_), Queued(_)) => Put(s, i, Idle)
    case (Cancel(_), Entered) => Put(s, i, Clearing)
    case (Cancel(_), Running(_, _)) => Put(s, i, Leaving(Cancelled))
    case (Cancel(_), Resetting) => Put(s, i, Clearing)
    case _ => s
  }

  // A frame is correlated with whatever command is current.
  function Correlate(s: Flow, f: Arrival): Flow
  {
    if s.current.Some? && s.current.value < |s.tasks| && s.tasks[s.current.value].Running? then
      var t := s.tasks[s.current.value];
      Put(s, s.current.value, t.(heard := t.heard + [f]))
    else s
  }

  function Step(s: Flow, e: Event): (r: Flow)
    ensures |r.tasks| == |s.tasks|
  {
    if e.Frame? then Correlate(s, e.f) else if e.i < |s.tasks| then Act(s, e, e.i) else s
  }

  function Run(n: nat, events: seq<Event>): (s: Flow)
    ensures |s.tasks| == n
    decreases |events|
  {
    if events == [] then Flow(seq(n, _ => Idle), None, None, 0)
    else Step(Run(n, events[..|events| - 1]), events[|events| - 1])
  }

  predicate Holds(t: Task) { t.Entered? || t.Running? || t.Leaving? || t.Clearing? || t.Resetting? }
  predicate Owns(t: Task) { t.Running? || t.Leaving? }

  predicate Safe(s: Flow)
  {
    && (forall i: nat :: i < |s.tasks| ==> (Holds(s.tasks[i]) <==> s.holder == Some(i)))
    && (forall i: nat :: i < |s.tasks| ==> (Owns(s.tasks[i]) <==> s.current == Some(i)))
    && (s.holder.Some? ==> s.holder.value < |s.tasks|)
    && (s.current.Some? ==> s.current.value < |s.tasks|)
    && s.interrupted == 0
  }

  lemma ActSafe(s: Flow, e: Event, i: nat)
    requires Safe(s) && i < |s.tasks|
    ensures Safe(Act(s, e, i))
  {
    var t := s.tasks[i];
    assert Holds(t) <==> s.holder == Some(i);
    assert Owns(t) <==> s.current == Some(i);
    if t.Resetting? {
      OwnerHolds(s);
    }
  }

  lemma OwnerHolds(s: Flow)
    requires Safe(s)
    ensures s.current.Some? ==> s.current == s.holder && Owns(s.tasks[s.current.value])
  {
    if s.current.Some? {
      var i := s.current.value;
      assert Owns(s.tasks[i]) && Holds(s.tasks[i]);
    }
  }

  // For every interleaving of any number of senders and resets: one task at most is inside the lock;
  // a command is current exactly from its sender's assignment to its finally clause, all of it
  // inside the lock; and reset(), which takes the lock first, never finds a command to fail.
  lemma {:induction false} PendingMeansLocked(n: nat, events: seq<Event>)
    ensures var s := Run(n, events);
            && Safe(s)
            && (s.current.Some? ==> s.holder == s.current && Owns(s.tasks[s.current.value]))
    decreases |events|
  {
    if events != [] {
      var s, e := Run(n, events[..|events| - 1]), events[|events| - 1];
      PendingMeansLocked(n, events[..|events| - 1]);
      if !e.Frame? && e.i < |s.tasks| { ActSafe(s, e, e.i); }
    }
    OwnerHolds(Run(n, events));
  }

  // So an arriving frame is heard by the sender inside the lock and by nobody else, and a reset
  // that runs its body changes no sender's state.
  lemma FrameReachesHolder(n: nat, events: seq<Event>, e: Event, i: nat)
    requires i < n && (e.Frame? || (e.ResetBody? && e.i != i))
    ensures var s := Run(n, events);
            Step(s, e).tasks[i] != s.tasks[i] ==> e.Frame? && s.holder == Some(i) && s.tasks[i].Running?
  {
    PendingMeansLocked(n, events);
  }

  // And it is heard: the sender inside the lock has every frame that arrives while it runs.
  lemma FrameIsHeard(n: nat, events: seq<Event>, f: Arrival, i: nat)
    requires i < n && Run(n, events).tasks[i].Running?
    ensures var s := Run(n, events); var t := s.tasks[i];
            s.holder == Some(i) && Step(s, Frame(f)).tasks[i] == Running(t.attempts, t.heard + [f])
  {
    PendingMeansLocked(n, events);
    assert Owns(Run(n, events).tasks[i]) && Holds(Run(n, events).tasks[i]);
  }

  // However a sender leaves, its finally clause and the end of the lock free both for the next.
  lemma ExitFrees(n: nat, events: seq<Event>, i: nat, exit: Exit)
    requires i < n && Run(n, events).tasks[i].Running?
    ensures var s := Step(Step(Step(Run(n, events), Take(i, exit)), Finally(i)), Release(i));
            s.holder == None && s.current == None && s.tasks[i] == Idle
  {
  }
}
