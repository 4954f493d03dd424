// Tracked sends: one pending command at a time, correlated with whatever arrives, retried
// with a fresh frame until an answer, a refusal or the attempt limit.
module Transport {
  import opened BigEndian
  import opened Wrappers
  import opened Protocol

  // The payload of an arriving frame, as far as correlation looks into it: nothing, an
  // acknowledgement that names its command, or anything else.
  datatype Payload = Nothing | Names(command: int) | Other(data: Bytes)

  datatype Arrival = Arrival(cmd: int, payload: Payload)

  // Each response and the request it answers.
  const RESPONSES: map<int, int> := map[
    65 := 64, 67 := 66, 69 := 68, 71 := 70, 73 := 72, 75 := 74, 85 := 83, 86 := 84, 114 := 113,
    132 := 128, 133 := 130, 147 := 145, 165 := 161, 166 := 162, 178 := 177]

  const FAILURES: set<int> := {
    STATUS_ERROR, STATUS_CMD_UNKNOWN, STATUS_MALFORMED, STATUS_CRC_MISMATCH, STATUS_TIMEOUT, STATUS_NOT_IMPLEMENTED}

  function ExpectedResponses(cmd: int): set<int>
  {
    set r | r in RESPONSES && RESPONSES[r] == cmd
  }

  predicate Answers(cmd: int, f: Arrival) { f.cmd in RESPONSES && RESPONSES[f.cmd] == cmd }

  predicate Expects(cmd: int) { ExpectedResponses(cmd) != {} }

  predicate Tracked(cmd: int)
  {
    cmd != CMD_LINK_SYNC && cmd != CMD_LINK_RESET && (Expects(cmd) || RequiresAck(cmd))
  }

  // ---- What a frame decides ----

  datatype Verdict = Undecided | Success(payload: Payload) | Failure(status: int)

  // An acknowledgement that names no command counts for the pending one.
  predicate Acknowledges(cmd: int, f: Arrival)
  {
    f.cmd == STATUS_ACK && (f.payload.Names? ==> f.payload.command == cmd)
  }

  function Judge(cmd: int, f: Arrival): Verdict
  {
    if Answers(cmd, f) then Success(f.payload)
    else if f.cmd in FAILURES then Failure(f.cmd)
    else if !Expects(cmd) && (Acknowledges(cmd, f) || f.cmd == STATUS_OK) then Success(f.payload)
    else Undecided
  }

  // The verdict of the first frame that has one.
  function First(cmd: int, fs: seq<Arrival>): Verdict
  {
    if fs == [] then Undecided
    else if Judge(cmd, fs[0]).Undecided? then First(cmd, fs[1..])
    else Judge(cmd, fs[0])
  }

  lemma {:induction false} FirstConcat(cmd: int, a: seq<Arrival>, b: seq<Arrival>)
    ensures First(cmd, a + b) == if First(cmd, a).Undecided? then First(cmd, b) else First(cmd, a)
  {
    if a == [] {
      assert a + b == b;
    } else {
      assert (a + b)[1..] == a[1..] + b;
      FirstConcat(cmd, a[1..], b);
    }
  }

  // First is the verdict of a frame all of whose predecessors have none.
  lemma {:induction false} FirstMeaning(cmd: int, fs: seq<Arrival>)
    ensures First(cmd, fs).Undecided? <==> forall f :: f in fs ==> Judge(cmd, f).Undecided?
    ensures !First(cmd, fs).Undecided? ==>
              exists i :: 0 <= i < |fs| && Judge(cmd, fs[i]) == First(cmd, fs)
                          && forall j :: 0 <= j < i ==> Judge(cmd, fs[j]).Undecided?
  {
    if fs != [] && Judge(cmd, fs[0]).Undecided? {
      FirstMeaning(cmd, fs[1..]);
      if !First(cmd, fs).Undecided? {
        var i :| 0 <= i < |fs[1..]| && Judge(cmd, fs[1..][i]) == First(cmd, fs)
                 && forall j :: 0 <= j < i ==> Judge(cmd, fs[1..][j]).Undecided?;
        assert Judge(cmd, fs[i + 1]) == First(cmd, fs);
        forall j | 0 <= j < i + 1 ensures Judge(cmd, fs[j]).Undecided? {
          if j > 0 { assert fs[j] == fs[1..][j - 1]; }
        }
      }
    }
  }

  // What makes a command succeed, said of the frame itself: with a response, only that response;
  // without one, an acknowledgement that names the command or none, or an OK status.
  predicate Grants(cmd: int, f: Arrival)
  {
    if exists r :: r in RESPONSES && RESPONSES[r] == cmd then f.cmd in RESPONSES && RESPONSES[f.cmd] == cmd
    else f.cmd == STATUS_OK || (f.cmd == STATUS_ACK && (f.payload.Names? ==> f.payload.command == cmd))
  }

  lemma JudgeIs(cmd: int, f: Arrival)
    ensures forall q :: Judge(cmd, f) == Success(q) <==> Grants(cmd, f) && q == f.payload
    ensures forall st :: Judge(cmd, f) == Failure(st) <==> f.cmd in FAILURES && st == f.cmd
    ensures Judge(cmd, f).Undecided? <==> !Grants(cmd, f) && f.cmd !in FAILURES
  {
    NothingAnswers(cmd, f);
    ExpectsMeaning(cmd);
  }

  lemma ExpectsMeaning(cmd: int)
    ensures Expects(cmd) <==> exists r :: r in RESPONSES && RESPONSES[r] == cmd
  {
    if Expects(cmd) {
      var r :| r in ExpectedResponses(cmd);
    }
    if r :| r in RESPONSES && RESPONSES[r] == cmd {
      assert r in ExpectedResponses(cmd);
    }
  }

  // Exactly these commands are tracked.
  lemma TrackedIff(cmd: int)
    ensures Tracked(cmd) <==> cmd in {64, 66, 72, 74, 76, 80, 81, 82, 83, 84, 96, 112, 113, 128, 130, 131, 144, 145,
                                      161, 162, 176, 177, 179, 180}
  {
    ExpectsMeaning(cmd);
    assert RESPONSES[65] == 64 && RESPONSES[67] == 66 && RESPONSES[73] == 72 && RESPONSES[85] == 83 && RESPONSES[86] == 84;
    assert RESPONSES[114] == 113 && RESPONSES[132] == 128 && RESPONSES[133] == 130 && RESPONSES[147] == 145;
    assert RESPONSES[165] == 161 && RESPONSES[166] == 162 && RESPONSES[178] == 177;
  }

  lemma {:induction false} FirstAt(cmd: int, fs: seq<Arrival>, i: nat)
    requires i < |fs| && !Judge(cmd, fs[i]).Undecided? && forall j: nat :: j < i ==> Judge(cmd, fs[j]).Undecided?
    ensures First(cmd, fs) == Judge(cmd, fs[i])
    decreases i
  {
    if i > 0 {
      FirstAt(cmd, fs[1..], i - 1);
    }
  }

  // ---- What a whole send amounts to ----

  // What surrounds one attempt: the frames heard while it is written, while it waits, and
  // between its timeout and the next attempt.
  datatype Attempt = Attempt(written: bool, during: seq<Arrival>, waiting: seq<Arrival>, late: seq<Arrival>)

  // What survives from one attempt to the next: whether the completion event is already
  // set, and the last failure status.
  datatype Residue = Residue(completed: bool, failure: Option<int>)

  datatype Outcome = Returned(payload: Payload) | Refused(status: Option<int>) | Retry

  // The frames an attempt listens to. With the event already set it does not wait.
  function Heard(a: Attempt, r: Residue): seq<Arrival>
  {
    if r.completed then a.during else a.during + a.waiting
  }

  function Try(cmd: int, a: Attempt, r: Residue): Outcome
  {
    if !a.written then Refused(None)
    else
      match First(cmd, Heard(a, r))
      case Success(payload) => Returned(payload)
      case Failure(status) => Refused(Some(status))
      case Undecided => if r.completed && r.failure.Some? then Refused(r.failure) else Retry
  }

  function Leftover(cmd: int, a: Attempt, r: Residue): Residue
  {
    match First(cmd, a.late)
    case Undecided => r
    case Success(_) => r.(completed := true)
    case Failure(status) => Residue(true, Some(status))
  }

  // The outcome of attempts k, k+1, .. and the number of frames written.
  function Attempts(cmd: int, env: nat -> Attempt, k: nat, max: nat, r: Residue): (Outcome, nat)
    requires k <= max
    decreases max - k
  {
    if k == max then (Retry, 0)
    else
      var o := Try(cmd, env(k), r);
      var n := if env(k).written then 1 else 0;
      if o != Retry then (o, n)
      else
        var (o', n') := Attempts(cmd, env, k + 1, max, Leftover(cmd, env(k), r));
        (o', n + n')
  }

  // False, True, or the payload of the answer.
  datatype Result = No | Done | Yes(payload: Payload)

  function Report(o: Outcome): Result { match o case Returned(payload) => Yes(payload) case _ => No }

  const CLEAN := Residue(false, None)

  // ---- Properties of every send ----

  // What is left behind by attempts 0 .. k-1.
  function ResidueAt(cmd: int, env: nat -> Attempt, k: nat): Residue
  {
    if k == 0 then CLEAN else Leftover(cmd, env(k - 1), ResidueAt(cmd, env, k - 1))
  }

  function TryAt(cmd: int, env: nat -> Attempt, k: nat): Outcome { Try(cmd, env(k), ResidueAt(cmd, env, k)) }

  // The attempt that settles a send: all before it asked for a retry.
  predicate SettledBy(cmd: int, env: nat -> Attempt, k: nat, o: Outcome)
  {
    && o != Retry && TryAt(cmd, env, k) == o
    && forall j: nat :: j < k ==> TryAt(cmd, env, j) == Retry
  }

  lemma NextResidue(cmd: int, env: nat -> Attempt, k: nat)
    ensures ResidueAt(cmd, env, k + 1) == Leftover(cmd, env(k), ResidueAt(cmd, env, k))
  {
  }

  // A send is the outcome of its first conclusive attempt, and never writes more frames
  // than attempts.
  lemma {:induction false} AttemptsMeaning(cmd: int, env: nat -> Attempt, k: nat, max: nat)
    requires k <= max && forall j: nat :: j < k ==> TryAt(cmd, env, j) == Retry
    ensures var (o, n) := Attempts(cmd, env, k, max, ResidueAt(cmd, env, k));
            && n <= max - k
            && (o != Retry ==> exists i: nat :: k <= i < max && SettledBy(cmd, env, i, o))
            && (o == Retry <==> forall i: nat :: k <= i < max ==> TryAt(cmd, env, i) == Retry)
    decreases max - k
  {
    hide Try, Leftover, ResidueAt;
    if k < max {
      var o := TryAt(cmd, env, k);
      if o == Retry {
        AttemptsMeaning(cmd, env, k + 1, max);
        NextResidue(cmd, env, k);
      } else {
        assert SettledBy(cmd, env, k, o);
      }
    }
  }

  // A send that does not return False heard, during the attempt that returned, a frame that
  // answers it, and nothing decisive before it; if the command has a response, that frame is
  // the response: neither an acknowledgement nor an OK status is enough.
  lemma SuccessNeedsAnswer(cmd: int, env: nat -> Attempt, max: nat, p: Payload)
    requires Report(Attempts(cmd, env, 0, max, CLEAN).0) == Yes(p)
    ensures exists k: nat, i: nat ::
              && k < max && SettledBy(cmd, env, k, Returned(p)) && env(k).written
              && var heard := Heard(env(k), ResidueAt(cmd, env, k));
                 && i < |heard| && heard[i].payload == p
                 && (forall j: nat :: j < i ==> Judge(cmd, heard[j]).Undecided?)
                 && if Expects(cmd) then Answers(cmd, heard[i])
                    else Acknowledges(cmd, heard[i]) || heard[i].cmd == STATUS_OK
  {
    AttemptsMeaning(cmd, env, 0, max);
    var k: nat :| k < max && SettledBy(cmd, env, k, Returned(p));
    var heard := Heard(env(k), ResidueAt(cmd, env, k));
    FirstMeaning(cmd, heard);
    var i: nat :| i < |heard| && Judge(cmd, heard[i]) == Success(p) && forall j: nat :: j < i ==> Judge(cmd, heard[j]).Undecided?;
    if !Expects(cmd) {
      NothingAnswers(cmd, heard[i]);
    }
    assert SettledBy(cmd, env, k, Returned(p)) && i < |heard|;
  }

  lemma NothingAnswers(cmd: int, f: Arrival)
    ensures Answers(cmd, f) ==> Expects(cmd)
  {
    if Answers(cmd, f) {
      assert f.cmd in ExpectedResponses(cmd);
    }
  }

  // Everything heard by attempts k .. max-1, in order.
  function Everything(env: nat -> Attempt, k: nat, max: nat): seq<Arrival>
    requires k <= max
    decreases max - k
  {
    if k == max then [] else env(k).during + env(k).waiting + Everything(env, k + 1, max)
  }

  function Settled(v: Verdict): Result { match v case Success(payload) => Yes(payload) case _ => No }

  // The frames attempts k .. max-1 listen to, given what is left behind. Once the completion event
  // is set no attempt waits; once a failure is left behind the next attempt is the last; and an
  // attempt that is not written ends the send.
  function Listened(cmd: int, env: nat -> Attempt, k: nat, max: nat, r: Residue): seq<Arrival>
    requires k <= max
    decreases max - k
  {
    if k == max || !env(k).written then []
    else if r.completed && r.failure.Some? then env(k).during
    else Heard(env(k), r) + Listened(cmd, env, k + 1, max, Leftover(cmd, env(k), r))
  }

  // The exact outcome of every send: that of the first decisive frame it listens to.
  lemma {:induction false} ListenedDecides(cmd: int, env: nat -> Attempt, k: nat, max: nat, r: Residue)
    requires k <= max
    ensures Report(Attempts(cmd, env, k, max, r).0) == Settled(First(cmd, Listened(cmd, env, k, max, r)))
    decreases max - k
  {
    if k < max && env(k).written && !(r.completed && r.failure.Some?) {
      var r' := Leftover(cmd, env(k), r);
      FirstConcat(cmd, Heard(env(k), r), Listened(cmd, env, k + 1, max, r'));
      ListenedDecides(cmd, env, k + 1, max, r');
    }
  }

  // Frame i grants the command, and nothing before it grants or refuses it.
  predicate GrantedBy(cmd: int, fs: seq<Arrival>, i: nat, p: Payload)
  {
    && i < |fs| && Grants(cmd, fs[i]) && fs[i].payload == p
    && forall j: nat :: j < i ==> !Grants(cmd, fs[j]) && fs[j].cmd !in FAILURES
  }

  // A send returns a payload exactly if a frame it listens to grants the command with that payload,
  // before any that grants or refuses it.
  lemma ReturnsIff(cmd: int, env: nat -> Attempt, max: nat, p: Payload)
    ensures Report(Attempts(cmd, env, 0, max, CLEAN).0) == Yes(p) <==>
              exists i: nat :: GrantedBy(cmd, Listened(cmd, env, 0, max, CLEAN), i, p)
  {
    hide Judge, Grants, Attempts, Listened;
    var fs := Listened(cmd, env, 0, max, CLEAN);
    ListenedDecides(cmd, env, 0, max, CLEAN);
    forall f: Arrival { JudgeIs(cmd, f); }
    FirstMeaning(cmd, fs);
    if First(cmd, fs) == Success(p) {
      var i :| 0 <= i < |fs| && Judge(cmd, fs[i]) == First(cmd, fs) && forall j :: 0 <= j < i ==> Judge(cmd, fs[j]).Undecided?;
      assert GrantedBy(cmd, fs, i, p);
    }
    if i: nat :| GrantedBy(cmd, fs, i, p) {
      FirstAt(cmd, fs, i);
    }
  }

  // The first conclusive attempt is the last: that many frames have been written.
  lemma {:induction false} SettledCount(cmd: int, env: nat -> Attempt, from: nat, k: nat, max: nat)
    requires from <= k < max && TryAt(cmd, env, k) != Retry
    requires forall j: nat :: from <= j < k ==> TryAt(cmd, env, j) == Retry
    ensures Attempts(cmd, env, from, max, ResidueAt(cmd, env, from)) == (TryAt(cmd, env, k), k - from + if env(k).written then 1 else 0)
    decreases k - from
  {
    hide Leftover, ResidueAt;
    if from < k {
      assert TryAt(cmd, env, from) == Retry;
      NextResidue(cmd, env, from);
      SettledCount(cmd, env, from + 1, k, max);
    }
  }

  // A failure status heard first ends the send after exactly that attempt.
  lemma FailureEnds(cmd: int, env: nat -> Attempt, k: nat, max: nat, i: nat)
    requires k < max && env(k).written && forall j: nat :: j < k ==> TryAt(cmd, env, j) == Retry
    requires var heard := Heard(env(k), ResidueAt(cmd, env, k));
             && i < |heard| && heard[i].cmd in FAILURES
             && forall j: nat :: j < i ==> !Grants(cmd, heard[j]) && heard[j].cmd !in FAILURES
    ensures Attempts(cmd, env, 0, max, CLEAN) == (Refused(Some(Heard(env(k), ResidueAt(cmd, env, k))[i].cmd)), k + 1)
  {
    hide Judge, Grants, Attempts;
    var heard := Heard(env(k), ResidueAt(cmd, env, k));
    forall f: Arrival { JudgeIs(cmd, f); }
    assert Judge(cmd, heard[i]) == Failure(heard[i].cmd);
    FirstAt(cmd, heard, i);
    assert TryAt(cmd, env, k) == Refused(Some(heard[i].cmd));
    SettledCount(cmd, env, 0, k, max);
  }

  // With nothing decisive at all, every attempt is made, one frame each.
  lemma {:induction false} SilenceExhausts(cmd: int, env: nat -> Attempt, k: nat, max: nat)
    requires k <= max && AllWritten(env, max)
    requires forall j: nat, f: Arrival :: j < max && f in env(j).during + env(j).waiting + env(j).late ==>
                                            !Grants(cmd, f) && f.cmd !in FAILURES
    ensures Attempts(cmd, env, k, max, CLEAN) == (Retry, max - k)
    decreases max - k
  {
    hide Judge, Grants;
    if k < max {
      forall f: Arrival { JudgeIs(cmd, f); }
      FirstMeaning(cmd, env(k).during + env(k).waiting);
      FirstMeaning(cmd, env(k).late);
      SilenceExhausts(cmd, env, k + 1, max);
    }
  }

  // ---- Against all that arrives while attempts run ----

  predicate AllWritten(env: nat -> Attempt, max: nat) { forall k: nat :: k < max ==> env(k).written }

  // A decisive frame between attempt g and the next.
  predicate Gap(cmd: int, env: nat -> Attempt, g: nat) { !First(cmd, env(g).late).Undecided? }

  predicate NoGapBefore(cmd: int, env: nat -> Attempt, g: nat) { forall k: nat :: k < g ==> !Gap(cmd, env, k) }

  function Both(a: Attempt): seq<Arrival> { a.during + a.waiting }

  lemma Regroup<T>(a: seq<T>, b: seq<T>, c: seq<T>, d: seq<T>)
    ensures a + (b + (c + d)) == (a + b + c) + d
    ensures (a + b) + c == a + (b + c)
  {
  }

  // One attempt, where the one before left nothing, a success or a failure behind.
  lemma ListenedStep(cmd: int, env: nat -> Attempt, k: nat, max: nat, r: Residue)
    requires k < max && env(k).written
    ensures var rest := Listened(cmd, env, k + 1, max, Leftover(cmd, env(k), r));
            Listened(cmd, env, k, max, r) ==
              if r.completed && r.failure.Some? then env(k).during
              else if r.completed then env(k).during + rest
              else Both(env(k)) + rest
    ensures Everything(env, k, max) == Both(env(k)) + Everything(env, k + 1, max)
    ensures !Gap(cmd, env, k) ==> Leftover(cmd, env(k), r) == r
    ensures Gap(cmd, env, k) ==> Leftover(cmd, env(k), r).completed
  {
  }

  // Up to the first gap a send listens to everything.
  lemma {:induction false} ListensUpTo(cmd: int, env: nat -> Attempt, k: nat, g: nat, max: nat)
    requires k <= g <= max && AllWritten(env, max) && NoGapBefore(cmd, env, g)
    ensures Listened(cmd, env, k, max, CLEAN) == Everything(env, k, g) + Listened(cmd, env, g, max, CLEAN)
    ensures Everything(env, k, max) == Everything(env, k, g) + Everything(env, g, max)
    decreases g - k
  {
    if k < g {
      hide Listened, Everything, Leftover, Gap, Both;
      assert !Gap(cmd, env, k);
      ListenedStep(cmd, env, k, max, CLEAN);
      ListenedStep(cmd, env, k, g, CLEAN);
      ListensUpTo(cmd, env, k + 1, g, max);
      Regroup(Both(env(k)), Everything(env, k + 1, g), Listened(cmd, env, g, max, CLEAN), []);
      Regroup(Both(env(k)), Everything(env, k + 1, g), Everything(env, g, max), []);
    }
  }

  // Without a gap before the last attempt, retries are invisible: the send has the outcome of the
  // first decisive frame among all that arrives while its attempts run.
  lemma FirstDecisiveFrame(cmd: int, env: nat -> Attempt, max: nat)
    requires AllWritten(env, max) && (max > 0 ==> NoGapBefore(cmd, env, max - 1))
    ensures Report(Attempts(cmd, env, 0, max, CLEAN).0) == Settled(First(cmd, Everything(env, 0, max)))
  {
    ListenedDecides(cmd, env, 0, max, CLEAN);
    if max > 0 {
      ListensUpTo(cmd, env, 0, max - 1, max);
      assert Listened(cmd, env, max - 1, max, CLEAN) == Heard(env(max - 1), CLEAN) + [];
      assert Everything(env, max - 1, max) == env(max - 1).during + env(max - 1).waiting + [];
    }
  }

  // What is heard before the first gap at g and while attempt g+1 is written.
  function InTime(env: nat -> Attempt, g: nat): seq<Arrival> { Everything(env, 0, g + 1) + env(g + 1).during }

  // What arrives after that, and the part of it the send still listens to.
  function Afterwards(env: nat -> Attempt, g: nat, max: nat): seq<Arrival>
    requires g + 1 < max
  {
    env(g + 1).waiting + Everything(env, g + 2, max)
  }

  function StillHeard(cmd: int, env: nat -> Attempt, g: nat, max: nat): seq<Arrival>
    requires g + 1 < max
  {
    var r := Leftover(cmd, env(g), CLEAN);
    if r.failure.Some? then [] else Listened(cmd, env, g + 2, max, Leftover(cmd, env(g + 1), r))
  }

  lemma GapSplits(cmd: int, env: nat -> Attempt, g: nat, max: nat)
    requires g + 1 < max && AllWritten(env, max) && NoGapBefore(cmd, env, g) && Gap(cmd, env, g)
    ensures Listened(cmd, env, 0, max, CLEAN) == InTime(env, g) + StillHeard(cmd, env, g, max)
    ensures Everything(env, 0, max) == InTime(env, g) + Afterwards(env, g, max)
  {
    hide Listened, Everything, Leftover, Gap, First, StillHeard, Both;
    ListensUpTo(cmd, env, 0, g, max);
    EverythingStep(env, 0, g);
    ListenedStep(cmd, env, g, max, CLEAN);
    NextHeard(cmd, env, g, max);
    Regroup(Everything(env, 0, g), Both(env(g)), env(g + 1).during, StillHeard(cmd, env, g, max));
    Regroup(Everything(env, 0, g), Both(env(g)), env(g + 1).during, Afterwards(env, g, max));
  }

  // The attempt after the gap.
  lemma NextHeard(cmd: int, env: nat -> Attempt, g: nat, max: nat)
    requires g + 1 < max && AllWritten(env, max) && Gap(cmd, env, g)
    ensures Listened(cmd, env, g + 1, max, Leftover(cmd, env(g), CLEAN)) == env(g + 1).during + StillHeard(cmd, env, g, max)
    ensures Everything(env, g + 1, max) == env(g + 1).during + Afterwards(env, g, max)
  {
    hide Listened, Everything, First, Leftover;
    var r := Leftover(cmd, env(g), CLEAN);
    ListenedStep(cmd, env, g, max, CLEAN);
    ListenedStep(cmd, env, g + 1, max, r);
    Regroup(env(g + 1).during, env(g + 1).waiting, Everything(env, g + 2, max), []);
    assert env(g + 1).during + [] == env(g + 1).during;
  }

  lemma {:induction false} EverythingStep(env: nat -> Attempt, k: nat, g: nat)
    requires k <= g
    ensures Everything(env, k, g + 1) == Everything(env, k, g) + Both(env(g))
    decreases g - k
  {
    if k < g {
      EverythingStep(env, k + 1, g);
      Regroup(Both(env(k)), Everything(env, k + 1, g), Both(env(g)), []);
    } else {
      assert Everything(env, g + 1, g + 1) == [];
    }
  }

  // With a first gap at g, the send has the outcome of the first decisive frame of all exactly if
  // that frame comes in time, or what is still heard settles the send as what arrives would.
  lemma FirstDecisiveIff(cmd: int, env: nat -> Attempt, g: nat, max: nat)
    requires g + 1 < max && AllWritten(env, max) && NoGapBefore(cmd, env, g) && Gap(cmd, env, g)
    ensures Report(Attempts(cmd, env, 0, max, CLEAN).0) == Settled(First(cmd, Everything(env, 0, max))) <==>
              !First(cmd, InTime(env, g)).Undecided?
              || Settled(First(cmd, StillHeard(cmd, env, g, max))) == Settled(First(cmd, Afterwards(env, g, max)))
  {
    ListenedDecides(cmd, env, 0, max, CLEAN);
    GapSplits(cmd, env, g, max);
    FirstConcat(cmd, InTime(env, g), StillHeard(cmd, env, g, max));
    FirstConcat(cmd, InTime(env, g), Afterwards(env, g, max));
  }

  // After a failure in the first gap nothing more is heard, so the send misses exactly a success.
  lemma FailureGapIff(cmd: int, env: nat -> Attempt, g: nat, max: nat)
    requires g + 1 < max && AllWritten(env, max) && NoGapBefore(cmd, env, g) && First(cmd, env(g).late).Failure?
    ensures Report(Attempts(cmd, env, 0, max, CLEAN).0) == Settled(First(cmd, Everything(env, 0, max))) <==>
              !First(cmd, InTime(env, g)).Undecided? || !First(cmd, Afterwards(env, g, max)).Success?
  {
    FirstDecisiveIff(cmd, env, g, max);
    assert First(cmd, []) == Undecided;
  }

  // What arrives while attempts k .. max-1 are written.
  function WhileWriting(env: nat -> Attempt, k: nat, max: nat): seq<Arrival>
    requires k <= max
    decreases max - k
  {
    if k == max then [] else env(k).during + WhileWriting(env, k + 1, max)
  }

  // After a success in the first gap, and no failure in a later one, no attempt waits: the send is
  // settled by what comes in time and then only by what arrives while a frame is being written.
  lemma SuccessGapSilencesWaiting(cmd: int, env: nat -> Attempt, g: nat, max: nat)
    requires g + 1 < max && AllWritten(env, max) && NoGapBefore(cmd, env, g) && First(cmd, env(g).late).Success?
    requires forall k: nat :: g < k < max ==> !First(cmd, env(k).late).Failure?
    ensures Report(Attempts(cmd, env, 0, max, CLEAN).0) ==
              Settled(First(cmd, InTime(env, g) + WhileWriting(env, g + 2, max)))
  {
    ListenedDecides(cmd, env, 0, max, CLEAN);
    GapSplits(cmd, env, g, max);
    Deaf(cmd, env, g + 2, max);
  }

  lemma {:induction false} Deaf(cmd: int, env: nat -> Attempt, k: nat, max: nat)
    requires k <= max && AllWritten(env, max)
    requires forall j: nat :: k <= j < max ==> !First(cmd, env(j).late).Failure?
    ensures Listened(cmd, env, k, max, Residue(true, None)) == WhileWriting(env, k, max)
    decreases max - k
  {
    if k == max {
      assert Listened(cmd, env, k, max, Residue(true, None)) == [];
    } else {
      hide First, Listened, Everything, Gap;
      assert !First(cmd, env(k).late).Failure?;
      ListenedStep(cmd, env, k, max, Residue(true, None));
      assert Leftover(cmd, env(k), Residue(true, None)) == Residue(true, None);
      Deaf(cmd, env, k + 1, max);
    }
  }

  // ---- The objects ----

  // mcubridge/protocol/structures.py
  class PendingCommand {
    const commandId: int
    const expectedRespIds: set<int>
    var attempts: nat
    var success: Option<bool>
    var failureStatus: Option<int>
    var ackReceived: bool
    var completion: bool
    var responsePayload: Option<Payload>

    constructor (commandId: int, expectedRespIds: set<int>)
      ensures this.commandId == commandId && this.expectedRespIds == expectedRespIds
      ensures attempts == 0 && success == None && failureStatus == None && !completion
    {
      this.commandId, this.expectedRespIds := commandId, expectedRespIds;
      attempts, success, failureStatus := 0, None, None;
      ackReceived, completion, responsePayload := false, false, None;
    }

    method MarkSuccess(payload: Payload)
      modifies this`responsePayload, this`success, this`completion
      ensures success == Some(true) && responsePayload == Some(payload) && completion
    {
      responsePayload := Some(payload);
      success := Some(true);
      completion := true;
    }

    method MarkFailure(status: Option<int>)
      modifies this`success, this`failureStatus, this`completion
      ensures success == Some(false) && completion
      ensures failureStatus == if status.Some? then status else old(failureStatus)
    {
      success := Some(false);
      if status.Some? {
        failureStatus := status;
      }
      completion := true;
    }

    function Left(): Residue
      reads this
    {
      Residue(completion, failureStatus)
    }

    // What a verdict does to an unresolved command.
    twostate predicate Took(v: Verdict)
      reads this
    {
      match v
      case Undecided =>
        && success == old(success) && completion == old(completion)
        && failureStatus == old(failureStatus) && responsePayload == old(responsePayload)
      case Success(payload) =>
        && success == Some(true) && completion
        && failureStatus == old(failureStatus) && responsePayload == Some(payload)
      case Failure(status) =>
        && success == Some(false) && completion && failureStatus == Some(status)
    }
  }

  // mcubridge/transport/serial.py
  class SerialTransport {
    const maxAttempts: nat
    var current: PendingCommand?
    var sent: nat

    constructor (retryAttempts: int)
      ensures current == null && sent == 0 && maxAttempts == if retryAttempts < 1 then 1 else retryAttempts
    {
      maxAttempts := if retryAttempts < 1 then 1 else retryAttempts;
      current, sent := null, 0;
    }

    method CorrelateFrame(f: Arrival)
      requires current != null ==> current.expectedRespIds == ExpectedResponses(current.commandId)
      modifies current
      ensures current != null && old(current.success) == None ==> current.Took(Judge(current.commandId, f))
      ensures current != null && old(current.success) == None ==>
                if Grants(current.commandId, f) then current.success == Some(true) && current.responsePayload == Some(f.payload)
                else if f.cmd in FAILURES then current.success == Some(false) && current.failureStatus == Some(f.cmd)
                else current.success == None
      ensures current != null && old(current.success) != None ==> unchanged(current)
      ensures current != null ==> current.attempts == old(current.attempts)
    {
      var pending := current;
      if pending == null { return; }
      if pending.success != None { return; }
      NothingAnswers(pending.commandId, f);
      JudgeIs(pending.commandId, f);
      if f.cmd == STATUS_ACK {
        var target := pending.commandId;
        if f.payload.Names? {
          target := f.payload.command;
        }
        if target == pending.commandId {
          pending.ackReceived := true;
          if pending.expectedRespIds == {} {
            pending.MarkSuccess(f.payload);
          }
        }
        return;
      }
      if f.cmd in RESPONSES && RESPONSES[f.cmd] == pending.commandId {
        pending.MarkSuccess(f.payload);
        return;
      }
      if f.cmd in FAILURES {
        pending.MarkFailure(Some(f.cmd));
      } else if f.cmd == STATUS_OK && pending.expectedRespIds == {} {
        pending.MarkSuccess(f.payload);
      }
    }

    // A stretch of the reading loop between two resumptions of the sender.
    method Listen(fs: seq<Arrival>)
      requires current != null && current.expectedRespIds == ExpectedResponses(current.commandId)
      modifies current
      ensures old(current.success) == None ==> current.Took(First(current.commandId, fs))
      ensures old(current.success) != None ==> unchanged(current)
      ensures current.attempts == old(current.attempts)
    {
      var i := 0;
      while i < |fs|
        invariant 0 <= i <= |fs|
        invariant old(current.success) == None ==>
                    if current.success == None
                    then current.Took(Undecided) && First(current.commandId, fs) == First(current.commandId, fs[i..])
                    else current.Took(First(current.commandId, fs))
        invariant old(current.success) != None ==> unchanged(current)
        invariant current.attempts == old(current.attempts)
      {
        assert fs[i..][0] == fs[i] && fs[i..][1..] == fs[i + 1..];
        CorrelateFrame(fs[i]);
        i := i + 1;
      }
      assert fs[|fs|..] == [];
    }

    // _send_attempt, and the pause before the next one.
    method SendAttempt(a: Attempt) returns (o: Outcome)
      requires current != null && current.expectedRespIds == ExpectedResponses(current.commandId)
      modifies current, this`sent
      ensures o == Try(current.commandId, a, old(current.Left()))
      ensures o == Retry ==> current.Left() == Leftover(current.commandId, a, old(current.Left()))
      ensures current.attempts == old(current.attempts) + 1
      ensures sent == old(sent) + if a.written then 1 else 0
    {
      var pending := current;
      pending.attempts := pending.attempts + 1;
      pending.ackReceived := false;
      pending.success := None;
      FirstConcat(pending.commandId, a.during, a.waiting);
      Listen(a.during);
      if !a.written { return Refused(None); }
      sent := sent + 1;
      if !pending.completion {
        Listen(a.waiting);
      }
      if pending.completion && pending.success == Some(true) { return Returned(pending.responsePayload.value); }
      if pending.completion && pending.failureStatus != None { return Refused(pending.failureStatus); }
      Listen(a.late);
      return Retry;
    }

    // send, run while it holds the flow lock. env says what each attempt meets.
    method Send(cmd: int, open: bool, env: nat -> Attempt) returns (r: Result)
      requires current == null
      modifies this
      ensures current == null
      ensures !open ==> r == No && sent == old(sent)
      ensures open && !Tracked(cmd) ==> r == (if env(0).written then Done else No) && sent <= old(sent) + 1
      ensures open && Tracked(cmd) ==>
                var (o, n) := Attempts(cmd, env, 0, maxAttempts, CLEAN);
                r == Report(o) && sent == old(sent) + n
    {
      hide Tracked, Expects, Try, Leftover;
      if !open { return No; }
      if !Tracked(cmd) {
        if !env(0).written { return No; }
        sent := sent + 1;
        return Done;
      }
      var pending := new PendingCommand(cmd, ExpectedResponses(cmd));
      current := pending;
      var k := 0;
      while k < maxAttempts
        invariant 0 <= k <= maxAttempts && pending.attempts == k
        invariant current == pending && fresh(pending)
        invariant pending.commandId == cmd && pending.expectedRespIds == ExpectedResponses(cmd)
        invariant var (o, n) := Attempts(cmd, env, k, maxAttempts, pending.Left());
                  Attempts(cmd, env, 0, maxAttempts, CLEAN) == (o, n + sent - old(sent))
      {
        var o := SendAttempt(env(k));
        if o != Retry {
          if o.Refused? {
            pending.MarkFailure(o.status);
          }
          current := null;
          return Report(o);
        }
        k := k + 1;
      }
      pending.MarkFailure(Some(STATUS_TIMEOUT));
      current := null;
      return No;
    }
  }
}
