// What every run of the store-and-forward service conserves, and in what order it delivers.
module SpoolLaws {
  import opened BigEndian
  import opened Wrappers
  import opened Protocol
  import opened SqliteDeque
  import opened CloudSpool

  // The service with its lock: `waiting` are admitted and not yet through their section.
  datatype System = System(s: State, waiting: seq<Message>, admitted: nat, order: seq<Message>)

  // shortcut: the message answers an open IPC request and never reaches the queue.
  datatype Event =
    | Enqueue(m: Message, shortcut: bool)
    | Enter(up: bool, publish: nat -> bool)
    | FlushOnly(up: bool, publish: nat -> bool)

  // The queue of the pending publishes has the same limit; zero means none.
  predicate QueueFull(w: System) { w.s.limit > 0 && |w.waiting| >= w.s.limit }

  function Step(c: Codec, w: System, e: Event): System
  {
    match e
    case Enqueue(m, shortcut) =>
      if shortcut || QueueFull(w) then w else w.(waiting := w.waiting + [m], admitted := w.admitted + 1)
    case Enter(up, publish) =>
      if w.waiting == [] then w
      else w.(s := Section(c, w.s, w.waiting[0], up, publish), waiting := w.waiting[1..], order := w.order + [w.waiting[0]])
    case FlushOnly(up, publish) => if up then w.(s := Flush(c, w.s, 0, publish).0) else w
  }

  function Run(c: Codec, w: System, events: seq<Event>): System
    decreases |events|
  {
    if events == [] then w else Step(c, Run(c, w, events[..|events| - 1]), events[|events| - 1])
  }

  // ---- Conservation ----

  // Messages accounted for.
  function Total(s: State): nat { |s.delivered| + |s.Spooled()| + s.droppedLimit + s.corrupt + s.dropped }

  lemma {:induction false} FlushConserves(c: Codec, s: State, k: nat, publish: nat -> bool)
    ensures var s' := Flush(c, s, k, publish).0;
            && Total(s') == Total(s) && s'.limit == s.limit && s'.spool.Some? == s.spool.Some?
            && |s'.Spooled()| <= |s.Spooled()| && s'.dropped == s.dropped && s'.droppedLimit == s.droppedLimit
    decreases |s.Spooled()|
  {
    if s.Spooled() != [] {
      var rest := s.(spool := Some(s.spool.value[1..]));
      match c.decode(s.spool.value[0])
      case None => FlushConserves(c, rest.(corrupt := s.corrupt + 1), k, publish);
      case Some(m) => FlushConserves(c, rest.(delivered := s.delivered + [m]), k + 1, publish);
    }
  }

  // After an attempt to store, the spool is within a positive limit.
  lemma StoreBounded(c: Codec, s: State, m: Message)
    ensures var (s', ok) := Store(c, s, m);
            && (s.limit > 0 ==> |s'.Spooled()| <= s.limit)
            && (ok && s.limit > 0 ==> s'.Spooled()[|s'.Spooled()| - 1..] == [c.encode(m).value])
  {
  }

  // The flush of a section, and how many publishes it made.
  function Flushed(c: Codec, s: State, up: bool, publish: nat -> bool): (State, nat)
  {
    if up then Flush(c, s, 0, publish) else (s, 0)
  }

  // With a positive limit, storing keeps exactly the newest entries that fit and counts exactly the
  // ones that do not; a message that cannot be encoded only makes room.
  lemma StoreExact(c: Codec, s: State, m: Message)
    requires s.spool.Some? && s.limit > 0
    ensures var (s', ok) := Store(c, s, m); var held := s.spool.value;
            var excess := if |held| + 1 > s.limit then |held| + 1 - s.limit else 0;
            && s'.droppedLimit == s.droppedLimit + excess
            && (ok <==> c.encode(m).Some?)
            && s'.spool == Some(if ok then LastOf(held + [c.encode(m).value], s.limit) else LastOf(held, s.limit - 1))
            && s'.delivered == s.delivered && s'.corrupt == s.corrupt && s'.dropped == s.dropped
  {
    var held := s.spool.value;
    LastOfIs(held, s.limit - 1);
    if c.encode(m).Some? {
      var grown := held + [c.encode(m).value];
      LastOfIs(grown, s.limit);
      if |held| >= s.limit {
        assert held[|held| - s.limit + 1..] + [c.encode(m).value] == grown[|grown| - s.limit..];
      }
    }
  }

  lemma {:induction false} LastOfIs<T>(q: seq<T>, n: nat)
    ensures LastOf(q, n) == if |q| <= n then q else q[|q| - n..]
    decreases n
  {
    if n > 0 && q != [] {
      LastOfIs(q[..|q| - 1], n - 1);
    }
  }

  // The last n elements, counted from the end.
  function LastOf<T>(q: seq<T>, n: nat): seq<T>
    decreases n
  {
    if n == 0 || q == [] then [] else LastOf(q[..|q| - 1], n - 1) + [q[|q| - 1]]
  }

  // A flush delivers readable entries from the head, one successful publish each, and drops the
  // unreadable ones it meets; it stops exactly when the spool is empty or a publish has failed, and
  // then the message that failed is still at the head.
  lemma {:induction false} FlushExact(c: Codec, s: State, k: nat, publish: nat -> bool)
    ensures var (s', k') := Flush(c, s, k, publish);
            && k <= k' && s'.droppedLimit == s.droppedLimit && s'.dropped == s.dropped
            && (if s'.Spooled() == [] then |s'.delivered| == |s.delivered| + (k' - k)
                else |s'.delivered| == |s.delivered| + (k' - k) - 1 && k < k' && !publish(k' - 1) && c.decode(s'.Spooled()[0]).Some?)
            && (forall j :: k <= j < k' - 1 ==> publish(j))
            && (s'.Spooled() == [] && k < k' ==> publish(k' - 1))
    decreases |s.Spooled()|
  {
    if s.Spooled() != [] {
      var rest := s.(spool := Some(s.spool.value[1..]));
      match c.decode(s.spool.value[0])
      case None => FlushExact(c, rest.(corrupt := s.corrupt + 1), k, publish);
      case Some(m) => FlushExact(c, rest.(delivered := s.delivered + [m]), k + 1, publish);
    }
  }

  // What becomes of a section's own message: delivered exactly if its publish succeeds; otherwise
  // stored if there is a spool and it can be encoded, and counted as dropped if not.
  lemma SectionOutcome(c: Codec, s: State, m: Message, up: bool, publish: nat -> bool)
    ensures var (s1, k) := Flushed(c, s, up, publish); var s' := Section(c, s, m, up, publish);
            if publish(k) then s' == s1.(delivered := s1.delivered + [m])
            else
              && s'.delivered == s1.delivered && s'.corrupt == s1.corrupt
              && s'.dropped == s1.dropped + (if s1.spool.Some? && c.encode(m).Some? then 0 else 1)
              && (s1.spool.Some? && c.encode(m).Some? && s.limit > 0 ==>
                    s'.spool == Some(LastOf(s1.spool.value + [c.encode(m).value], s.limit)))
  {
    FlushConserves(c, s, 0, publish);
    hide Flush, LastOf;
    var s1 := Flushed(c, s, up, publish).0;
    if s1.spool.Some? && s.limit > 0 { StoreExact(c, s1, m); }
  }

  // The spool is full when a section comes to store.
  predicate StoresFull(c: Codec, w: System, e: Event)
  {
    e.Enter? && w.waiting != [] && |Flushed(c, w.s, e.up, e.publish).0.Spooled()| >= w.s.limit
  }

  // Over every run: an entry is dropped for the limit only in a section that found the spool full.
  lemma {:induction false} DropsNeedFullSpool(c: Codec, w: System, events: seq<Event>)
    requires forall i :: 0 <= i < |events| ==> !StoresFull(c, Run(c, w, events[..i]), events[i])
    ensures Run(c, w, events).s.droppedLimit == w.s.droppedLimit
    decreases |events|
  {
    if events != [] {
      var front, e := events[..|events| - 1], events[|events| - 1];
      forall i | 0 <= i < |front| ensures !StoresFull(c, Run(c, w, front[..i]), front[i]) {
        assert front[..i] == events[..i] && front[i] == events[i];
      }
      DropsNeedFullSpool(c, w, front);
      var w1 := Run(c, w, front);
      assert !StoresFull(c, w1, e);
      RoomKeeps(c, w1, e);
    }
  }

  lemma RoomKeeps(c: Codec, w: System, e: Event)
    requires !StoresFull(c, w, e)
    ensures Step(c, w, e).s.droppedLimit == w.s.droppedLimit
  {
    if !e.Enqueue? { FlushConserves(c, w.s, 0, e.publish); }
    hide Flush;
  }

  // The section's message ends in a spool that keeps nothing.
  predicate Swallowed(c: Codec, s: State, m: Message, up: bool, publish: nat -> bool)
  {
    && s.limit == 0 && s.spool.Some? && c.encode(m).Some?
    && !publish((if up then Flush(c, s, 0, publish) else (s, 0)).1)
  }

  // A section accounts for its message exactly when the message is not swallowed: with
  // limit zero the spool accepts it and trims it away at once, and nothing counts it.
  lemma SectionConserves(c: Codec, s: State, m: Message, up: bool, publish: nat -> bool)
    ensures var s' := Section(c, s, m, up, publish);
            && s'.limit == s.limit && s'.spool.Some? == s.spool.Some?
            && (Total(s') == Total(s) + 1 <==> !Swallowed(c, s, m, up, publish))
            && Total(s') <= Total(s) + 1
  {
    FlushConserves(c, s, 0, publish);
    hide Flush;
  }

  // Conservation over every run, from any spool contents: with a positive limit, or without
  // a spool, what was there and what was admitted is delivered, spooled, counted as dropped
  // for one of three reasons, or still waiting.
  lemma {:induction false} Conservation(c: Codec, w: System, events: seq<Event>)
    requires w.s.limit > 0 || w.s.spool.None?
    ensures var w' := Run(c, w, events);
            && Total(w'.s) + |w'.waiting| + w.admitted == Total(w.s) + |w.waiting| + w'.admitted
            && w'.s.limit == w.s.limit && w'.s.spool.Some? == w.s.spool.Some?
  {
    if events != [] {
      var w1, e := Run(c, w, events[..|events| - 1]), events[|events| - 1];
      Conservation(c, w, events[..|events| - 1]);
      match e
      case Enqueue(m, shortcut) =>
      case Enter(up, publish) =>
        if w1.waiting != [] { SectionConserves(c, w1.s, w1.waiting[0], up, publish); }
      case FlushOnly(up, publish) => FlushConserves(c, w1.s, 0, publish);
    }
  }

  // With limit zero one failed publish is enough to lose a message without a trace.
  lemma ZeroLimitLoses(c: Codec, m: Message, publish: nat -> bool)
    requires c.encode(m).Some? && !publish(0)
    ensures var s := State(0, Some([]), [], 0, 0, 0);
            Section(c, s, m, false, publish) == s && Total(s) == 0
  {
    assert Newest([] + [c.encode(m).value], 0) == [];
  }

  // ---- Order ----

  // a can be read off b by leaving elements out.
  predicate Subseq<T(==)>(a: seq<T>, b: seq<T>)
    decreases |b|
  {
    a == [] ||
    (b != [] && ((a[|a| - 1] == b[|b| - 1] && Subseq(a[..|a| - 1], b[..|b| - 1])) || Subseq(a, b[..|b| - 1])))
  }

  lemma {:induction false} SubseqShorter<T>(a: seq<T>, b: seq<T>)
    requires Subseq(a, b)
    ensures |a| <= |b| && forall x :: x in a ==> x in b
    decreases |b|
  {
    if a != [] {
      if a[|a| - 1] == b[|b| - 1] && Subseq(a[..|a| - 1], b[..|b| - 1]) {
        SubseqShorter(a[..|a| - 1], b[..|b| - 1]);
        assert a == a[..|a| - 1] + [a[|a| - 1]] && b == b[..|b| - 1] + [b[|b| - 1]];
      } else {
        SubseqShorter(a, b[..|b| - 1]);
      }
    }
  }

  lemma SubseqAppend<T>(a: seq<T>, b: seq<T>, x: T)
    requires Subseq(a, b)
    ensures Subseq(a + [x], b + [x]) && Subseq(a, b + [x])
  {
    assert (a + [x])[..|a|] == a && (b + [x])[..|b|] == b;
  }

  lemma {:induction false} SubseqTrans<T>(a: seq<T>, b: seq<T>, c: seq<T>)
    requires Subseq(a, b) && Subseq(b, c)
    ensures Subseq(a, c)
    decreases |c|
  {
    if a != [] && b != [] {
      var c' := c[..|c| - 1];
      if b[|b| - 1] == c[|c| - 1] && Subseq(b[..|b| - 1], c') {
        if a[|a| - 1] == b[|b| - 1] && Subseq(a[..|a| - 1], b[..|b| - 1]) {
          SubseqTrans(a[..|a| - 1], b[..|b| - 1], c');
        } else {
          SubseqTrans(a, b[..|b| - 1], c');
        }
      } else {
        SubseqTrans(a, b, c');
      }
    }
  }

  lemma {:induction false} SubseqSame<T>(a: seq<T>)
    ensures Subseq(a, a)
  {
    if a != [] {
      SubseqSame(a[..|a| - 1]);
    }
  }

  // Leaving out a stretch in the middle.
  lemma {:induction false} SubseqCut<T>(a: seq<T>, x: seq<T>, b: seq<T>)
    ensures Subseq(a + b, a + x + b)
    decreases |x| + |b|
  {
    hide Subseq;
    if b != [] {
      SubseqCut(a, x, b[..|b| - 1]);
      SubseqAppend(a + b[..|b| - 1], a + x + b[..|b| - 1], b[|b| - 1]);
      assert a + b == a + b[..|b| - 1] + [b[|b| - 1]];
      assert a + x + b == a + x + b[..|b| - 1] + [b[|b| - 1]];
    } else if x != [] {
      var x' := x[..|x| - 1];
      SubseqCut(a, x', []);
      assert a + [] == a && a + x' + [] == a + x';
      SubseqAppend(a, a + x', x[|x| - 1]);
      assert a + x + b == a + x' + [x[|x| - 1]] && a + b == a;
    } else {
      SubseqSame(a + b);
      assert a + x + b == a + b;
    }
  }

  // The messages a spool holds, its unreadable entries left out.
  function Decoded(c: Codec, items: seq<Bytes>): seq<Message>
  {
    if items == [] then []
    else (match c.decode(items[0]) case None => [] case Some(m) => [m]) + Decoded(c, items[1..])
  }

  lemma {:induction false} DecodedConcat(c: Codec, a: seq<Bytes>, b: seq<Bytes>)
    ensures Decoded(c, a + b) == Decoded(c, a) + Decoded(c, b)
  {
    if a == [] {
      assert a + b == b;
    } else {
      assert (a + b)[1..] == a[1..] + b;
      DecodedConcat(c, a[1..], b);
    }
  }

  lemma DecodedOne(c: Codec, b: Bytes)
    ensures Decoded(c, []) == []
    ensures c.decode(b).Some? ==> Decoded(c, [b]) == [c.decode(b).value]
  {
  }

  function Line(c: Codec, s: State): seq<Message> { s.delivered + Decoded(c, s.Spooled()) }

  // After a failed publish, every later one of the section fails.
  ghost predicate FailFast(up: bool, publish: nat -> bool)
  {
    (!up ==> !publish(0)) && forall i: nat, j: nat :: i <= j && publish(j) ==> publish(i)
  }

  // A flush moves messages from the head of the spool to the end of what is delivered.
  lemma {:induction false} FlushKeepsLine(c: Codec, s: State, k: nat, publish: nat -> bool)
    ensures Line(c, Flush(c, s, k, publish).0) == Line(c, s)
    decreases |s.Spooled()|
  {
    if s.Spooled() != [] {
      var rest := s.(spool := Some(s.spool.value[1..]));
      match c.decode(s.spool.value[0])
      case None => FlushKeepsLine(c, rest.(corrupt := s.corrupt + 1), k, publish);
      case Some(m) =>
        var moved := rest.(delivered := s.delivered + [m]);
        FlushKeepsLine(c, moved, k + 1, publish);
        assert Line(c, moved) == Line(c, s);
    }
  }

  // If a publish can still succeed after a flush, the flush has emptied the spool.
  lemma {:induction false} FlushEmpties(c: Codec, s: State, k: nat, publish: nat -> bool)
    requires FailFast(true, publish) && publish(Flush(c, s, k, publish).1)
    ensures Flush(c, s, k, publish).0.Spooled() == []
    decreases |s.Spooled()|
  {
    if s.Spooled() != [] {
      var rest := s.(spool := Some(s.spool.value[1..]));
      match c.decode(s.spool.value[0])
      case None => FlushEmpties(c, rest.(corrupt := s.corrupt + 1), k, publish);
      case Some(m) =>
        if publish(k) {
          FlushEmpties(c, rest.(delivered := s.delivered + [m]), k + 1, publish);
        }
    }
  }

  lemma StoreLine(c: Codec, s: State, m: Message)
    requires c.Correct()
    ensures Subseq(Line(c, Store(c, s, m).0), Line(c, s) + [m])
  {
    hide Subseq, Decoded;
    var line := Line(c, s);
    SubseqSame(line);
    SubseqAppend(line, line, m);
    if s.spool.Some? {
      var n := |s.spool.value|;
      var cut := if s.limit == 0 || n < s.limit then 0 else n - s.limit + 1;
      var kept := s.spool.value[cut..];
      assert MakeRoom(s).spool.value == kept;
      CutLine(c, s, m, cut);
      if c.encode(m).Some? {
        var b := c.encode(m).value;
        DecodedConcat(c, kept, [b]);
        DecodedOne(c, b);
        var whole := s.delivered + Decoded(c, kept + [b]);
        assert whole == s.delivered + Decoded(c, kept) + [m];
        if s.limit == 0 {
          SubseqCut(s.delivered, Decoded(c, kept + [b]), []);
          assert s.delivered + [] == s.delivered && whole + [] == whole;
          SubseqTrans(s.delivered, whole, line + [m]);
          assert Newest(kept + [b], 0) == [];
        } else {
          assert Newest(kept + [b], s.limit) == kept + [b];
        }
      }
    }
  }

  // Dropping the oldest entries, with or without the new message behind them.
  lemma CutLine(c: Codec, s: State, m: Message, cut: nat)
    requires s.spool.Some? && cut <= |s.spool.value|
    ensures var rest := s.delivered + Decoded(c, s.spool.value[cut..]);
            Subseq(rest, Line(c, s) + [m]) && Subseq(rest + [m], Line(c, s) + [m])
  {
    hide Subseq, Decoded;
    var gone, kept := s.spool.value[..cut], s.spool.value[cut..];
    assert gone + kept == s.spool.value;
    DecodedConcat(c, gone, kept);
    SubseqCut(s.delivered, Decoded(c, gone), Decoded(c, kept));
    assert s.delivered + Decoded(c, gone) + Decoded(c, kept) == Line(c, s);
    SubseqAppend(s.delivered + Decoded(c, kept), Line(c, s), m);
  }

  // The section's own publish succeeds while readable messages are still spooled.
  predicate Leaps(c: Codec, s: State, up: bool, publish: nat -> bool)
  {
    var (s1, k) := Flushed(c, s, up, publish);
    publish(k) && Decoded(c, s1.Spooled()) != []
  }

  lemma SectionLine(c: Codec, s: State, m: Message, up: bool, publish: nat -> bool)
    requires c.Correct() && !Leaps(c, s, up, publish)
    ensures Subseq(Line(c, Section(c, s, m, up, publish)), Line(c, s) + [m])
  {
    hide Subseq, Decoded;
    var (s1, k) := Flushed(c, s, up, publish);
    FlushKeepsLine(c, s, 0, publish);
    if publish(k) {
      assert Line(c, s1.(delivered := s1.delivered + [m])) == Line(c, s) + [m];
      SubseqSame(Line(c, s) + [m]);
    } else {
      StoreLine(c, s1, m);
    }
  }

  // Something old at the end and something new inside cannot be read off the old with the new last.
  lemma NewMustBeLast<T>(line: seq<T>, m: T, rest: seq<T>, order: seq<T>)
    requires rest != [] && m !in rest && m !in order
    ensures !Subseq(line + [m] + rest, order + [m])
  {
    var a, b := line + [m] + rest, order + [m];
    assert a[|a| - 1] == rest[|rest| - 1] && rest[|rest| - 1] in rest;
    assert b[..|b| - 1] == order && a[|line|] == m;
    if Subseq(a, order) {
      SubseqShorter(a, order);
    }
  }

  lemma LeapLine(c: Codec, s: State, m: Message, up: bool, publish: nat -> bool)
    requires Leaps(c, s, up, publish)
    ensures var (s1, _) := Flushed(c, s, up, publish);
            Line(c, Section(c, s, m, up, publish)) == s1.delivered + [m] + Decoded(c, s1.Spooled())
    ensures var (s1, _) := Flushed(c, s, up, publish);
            Line(c, s) == s1.delivered + Decoded(c, s1.Spooled())
  {
    hide Decoded;
    FlushKeepsLine(c, s, 0, publish);
  }

  // A section keeps the order exactly if it does not leap.
  lemma SectionOrderIff(c: Codec, s: State, m: Message, up: bool, publish: nat -> bool)
    requires c.Correct() && m !in Line(c, s)
    ensures Subseq(Line(c, Section(c, s, m, up, publish)), Line(c, s) + [m]) <==> !Leaps(c, s, up, publish)
  {
    hide Subseq, Section;
    if Leaps(c, s, up, publish) {
      LeapLine(c, s, m, up, publish);
      var s1 := Flushed(c, s, up, publish).0;
      NewMustBeLast(s1.delivered, m, Decoded(c, s1.Spooled()), Line(c, s));
    } else {
      SectionLine(c, s, m, up, publish);
    }
  }

  // After a failed publish, every later one of the section fails; so it does not leap.
  lemma FailFastKeeps(c: Codec, s: State, up: bool, publish: nat -> bool)
    requires FailFast(up, publish)
    ensures !Leaps(c, s, up, publish)
  {
    var (s1, k) := Flushed(c, s, up, publish);
    if publish(k) {
      assert publish(0);
      FlushEmpties(c, s, 0, publish);
    }
  }

  // The condition is needed: a publish that succeeds after one that failed overtakes the spool.
  lemma Overtakes(c: Codec, limit: nat, b: Bytes, m: Message, publish: nat -> bool)
    requires c.decode(b).Some? && c.decode(b).value != m && !publish(0) && publish(1)
    ensures var s := State(limit, Some([b]), [], 0, 0, 0);
            !Subseq(Line(c, Section(c, s, m, true, publish)), Line(c, s) + [m])
  {
    var s := State(limit, Some([b]), [], 0, 0, 0);
    var a := c.decode(b).value;
    DecodedOne(c, b);
    assert Line(c, Section(c, s, m, true, publish)) == [m, a] && Line(c, s) + [m] == [a, m];
    assert [a, m][..1] == [a];
    if Subseq([m, a], [a]) {
      SubseqShorter([m, a], [a]);
    }
  }

  // ---- Order over runs ----

  // What is delivered followed by what is spooled can be read off the messages in the order
  // their sections ran.
  predicate InOrder(c: Codec, w: System) { Subseq(Line(c, w.s), w.order) }

  predicate LeapsAt(c: Codec, w: System, e: Event) { e.Enter? && w.waiting != [] && Leaps(c, w.s, e.up, e.publish) }

  predicate NeverLeaps(c: Codec, w: System, events: seq<Event>)
    decreases |events|
  {
    events == [] ||
    (NeverLeaps(c, w, events[..|events| - 1]) && !LeapsAt(c, Run(c, w, events[..|events| - 1]), events[|events| - 1]))
  }

  predicate AlwaysInOrder(c: Codec, w: System, events: seq<Event>)
    decreases |events|
  {
    InOrder(c, Run(c, w, events)) && (events == [] || AlwaysInOrder(c, w, events[..|events| - 1]))
  }

  // Every section's message is new.
  predicate Novel(c: Codec, w: System, events: seq<Event>)
    decreases |events|
  {
    events == [] ||
    (var w1 := Run(c, w, events[..|events| - 1]);
     Novel(c, w, events[..|events| - 1]) && (events[|events| - 1].Enter? && w1.waiting != [] ==> w1.waiting[0] !in w1.order))
  }

  lemma StepOrder(c: Codec, w: System, e: Event)
    requires c.Correct() && InOrder(c, w) && !LeapsAt(c, w, e)
    ensures InOrder(c, Step(c, w, e))
  {
    hide Subseq, Section, Line, Leaps;
    match e
    case Enqueue(m, shortcut) =>
    case Enter(up, publish) =>
      if w.waiting != [] {
        var m := w.waiting[0];
        SectionLine(c, w.s, m, up, publish);
        SubseqAppend(Line(c, w.s), w.order, m);
        SubseqTrans(Line(c, Section(c, w.s, m, up, publish)), Line(c, w.s) + [m], w.order + [m]);
      }
    case FlushOnly(up, publish) => FlushKeepsLine(c, w.s, 0, publish);
  }

  lemma LeapBreaks(c: Codec, w: System, e: Event)
    requires InOrder(c, w) && LeapsAt(c, w, e) && w.waiting[0] !in w.order
    ensures !InOrder(c, Step(c, w, e))
  {
    hide Subseq, Section;
    var m := w.waiting[0];
    LeapLine(c, w.s, m, e.up, e.publish);
    SubseqShorter(Line(c, w.s), w.order);
    var s1 := Flushed(c, w.s, e.up, e.publish).0;
    NewMustBeLast(s1.delivered, m, Decoded(c, s1.Spooled()), w.order);
  }

  // Order over every run and every pattern of outages in which no section leaps.
  lemma {:induction false} OrderKept(c: Codec, w: System, events: seq<Event>)
    requires c.Correct() && InOrder(c, w) && NeverLeaps(c, w, events)
    ensures AlwaysInOrder(c, w, events)
    decreases |events|
  {
    hide InOrder, Step, LeapsAt;
    if events != [] {
      var front := events[..|events| - 1];
      OrderKept(c, w, front);
      StepOrder(c, Run(c, w, front), events[|events| - 1]);
    }
  }

  // And exactly those: with new messages, the order holds throughout a run if and only if no
  // section publishes past readable messages.
  lemma {:induction false} OrderIff(c: Codec, w: System, events: seq<Event>)
    requires c.Correct() && InOrder(c, w) && Novel(c, w, events)
    ensures AlwaysInOrder(c, w, events) <==> NeverLeaps(c, w, events)
    decreases |events|
  {
    hide InOrder, Step, LeapsAt;
    if events != [] {
      var front, e := events[..|events| - 1], events[|events| - 1];
      var w1 := Run(c, w, front);
      OrderIff(c, w, front);
      if NeverLeaps(c, w, front) {
        Latest(c, w, front);
        if LeapsAt(c, w1, e) {
          LeapIsEnter(c, w1, e);
          LeapBreaks(c, w1, e);
        } else {
          StepOrder(c, w1, e);
        }
      }
    }
  }

  lemma LeapIsEnter(c: Codec, w: System, e: Event)
    requires LeapsAt(c, w, e)
    ensures e.Enter? && w.waiting != []
  {
  }

  lemma Latest(c: Codec, w: System, events: seq<Event>)
    requires AlwaysInOrder(c, w, events)
    ensures InOrder(c, Run(c, w, events))
  {
  }

  ghost predicate AllFailFast(events: seq<Event>)
  {
    forall e :: e in events && !e.Enqueue? ==> FailFast(e.up, e.publish)
  }

  // Outages that last to the end of a section never make it leap.
  lemma {:induction false} OutagesKeepOrder(c: Codec, w: System, events: seq<Event>)
    requires c.Correct() && InOrder(c, w) && AllFailFast(events)
    ensures NeverLeaps(c, w, events) && AlwaysInOrder(c, w, events)
    decreases |events|
  {
    hide InOrder, Step, Leaps;
    if events != [] {
      var front, e := events[..|events| - 1], events[|events| - 1];
      OutagesKeepOrder(c, w, front);
      assert e in events;
      if e.Enter? { FailFastKeeps(c, Run(c, w, front).s, e.up, e.publish); }
    }
    OrderKept(c, w, events);
  }
}
