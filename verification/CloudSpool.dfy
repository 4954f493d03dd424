// Store and forward: a message is published, or spooled, or counted as dropped.
module CloudSpool {
  import opened BigEndian
  import opened Wrappers
  import opened Protocol
  import opened SqliteDeque

  datatype Message = Message(topic: string, payload: Bytes)

  // The serialisation library: None is an error.
  datatype Codec = Codec(encode: Message -> Option<Bytes>, decode: Bytes -> Option<Message>)
  {
    ghost predicate Correct()
    {
      forall m: Message :: encode(m).Some? ==> decode(encode(m).value) == Some(m)
    }
  }

  // spool: None when no spool directory is configured.
  datatype State = State(
    limit: nat,
    spool: Option<seq<Bytes>>,
    delivered: seq<Message>,
    droppedLimit: nat,
    corrupt: nat,
    dropped: nat)
  {
    function Spooled(): seq<Bytes> { if spool.None? then [] else spool.value }
  }

  // ---- One critical section ----

  // publish(k) is the outcome of the k-th publish of the section. Returns how many were made.
  function Flush(c: Codec, s: State, k: nat, publish: nat -> bool): (State, nat)
    decreases |s.Spooled()|
  {
    if s.Spooled() == [] then (s, k)
    else
      var rest := s.(spool := Some(s.spool.value[1..]));
      match c.decode(s.spool.value[0])
      case None => Flush(c, rest.(corrupt := s.corrupt + 1), k, publish)
      case Some(m) =>
        if publish(k) then Flush(c, rest.(delivered := s.delivered + [m]), k + 1, publish) else (s, k + 1)
  }

  // The oldest entries go until one more fits.
  function MakeRoom(s: State): State
  {
    var n := |s.Spooled()|;
    if s.spool.None? || s.limit == 0 || n < s.limit then s
    else s.(spool := Some(s.spool.value[n - s.limit + 1..]), droppedLimit := s.droppedLimit + (n - s.limit + 1))
  }

  function Store(c: Codec, s: State, m: Message): (State, bool)
  {
    if s.spool.None? then (s, false)
    else
      var t := MakeRoom(s);
      match c.encode(m)
      case None => (t, false)
      case Some(b) => (t.(spool := Some(Newest(t.spool.value + [b], s.limit))), true)
  }

  // How many of n entries must go for one more to fit.
  function Excess(n: nat, limit: nat): nat { if n + 1 > limit then n + 1 - limit else 0 }

  // With a positive limit, storing keeps exactly the newest entries that fit and counts exactly the
  // ones that do not.
  lemma StoreKeepsNewest(c: Codec, s: State, m: Message)
    requires s.spool.Some?
    ensures var (s', ok) := Store(c, s, m);
            && (ok <==> c.encode(m).Some?)
            && (s.limit > 0 ==> s'.droppedLimit == s.droppedLimit + Excess(|s.spool.value|, s.limit))
            && (s.limit > 0 && ok ==> s'.spool == Some(Newest(s.spool.value + [c.encode(m).value], s.limit)))
  {
    var held := s.spool.value;
    if s.limit > 0 && |held| >= s.limit && c.encode(m).Some? {
      var b := c.encode(m).value;
      assert held[|held| - s.limit + 1..] + [b] == (held + [b])[|held| + 1 - s.limit..];
    }
  }

  // up: whether the cloud stream is there when the flush begins.
  function Section(c: Codec, s: State, m: Message, up: bool, publish: nat -> bool): State
  {
    var (s1, k) := if up then Flush(c, s, 0, publish) else (s, 0);
    if publish(k) then s1.(delivered := s1.delivered + [m])
    else
      var (s2, ok) := Store(c, s1, m);
      if ok then s2 else s2.(dropped := s2.dropped + 1)
  }

  // ---- The service, in place ----

  class CloudSpool {
    const codec: Codec
    const limit: nat
    const spool: SqliteDeque?<Bytes>
    var droppedLimit: nat
    var corrupt: nat
    var dropped: nat
    ghost var delivered: seq<Message>

    predicate Valid()
      reads this, spool
    {
      spool != null ==> spool.Valid() && spool.maxlen == Some(limit)
    }

    ghost function View(): State
      reads this, spool
    {
      State(limit, if spool == null then None else Some(spool.rows), delivered, droppedLimit, corrupt, dropped)
    }

    constructor (codec: Codec, limit: nat, spool: SqliteDeque?<Bytes>)
      requires spool != null ==> spool.Valid() && spool.maxlen == Some(limit)
      ensures Valid() && View() == State(limit, if spool == null then None else Some(spool.rows), [], 0, 0, 0)
      ensures this.codec == codec
    {
      this.codec, this.limit, this.spool := codec, limit, spool;
      droppedLimit, corrupt, dropped, delivered := 0, 0, 0, [];
    }

    method FlushLocked(up: bool, publish: nat -> bool) returns (k: nat)
      requires Valid()
      modifies this, spool
      ensures Valid()
      ensures (View(), k) == if up then Flush(codec, old(View()), 0, publish) else (old(View()), 0)
    {
      k := 0;
      if !up || spool == null { return; }
      var spoolLen := spool.Length();
      while spoolLen > 0
        invariant Valid() && spoolLen == |spool.rows|
        invariant Flush(codec, View(), k, publish) == Flush(codec, old(View()), 0, publish)
        decreases spoolLen
      {
        var encoded := spool.Peek(Never);
        if encoded == None { break; }
        var queued := codec.decode(encoded.value);
        if queued == None {
          var _ := spool.PopLeft(Never);
          corrupt := corrupt + 1;
          spoolLen := spool.Length();
          continue;
        }
        k := k + 1;
        if !publish(k - 1) { break; }
        delivered := delivered + [queued.value];
        var _ := spool.PopLeft(Never);
        spoolLen := spool.Length();
      }
    }

    // The oldest entries go until one more fits.
    method TrimLocked()
      requires Valid() && spool != null
      modifies this`droppedLimit, spool
      ensures Valid() && View() == MakeRoom(old(View()))
    {
      ghost var s := View();
      if limit > 0 {
        var spoolLen := spool.Length();
        while spoolLen >= limit
          invariant Valid() && spoolLen == |spool.rows|
          invariant View() == s.(spool := Some(spool.rows), droppedLimit := droppedLimit)
          invariant MakeRoom(View()) == MakeRoom(s)
          decreases spoolLen
        {
          var popped := spool.PopLeft(Never);
          if popped == None { break; }
          droppedLimit := droppedLimit + 1;
          spoolLen := spool.Length();
        }
      }
    }

    // With a positive limit: the newest entries that fit are kept, the others counted, one by one.
    method SpoolLocked(m: Message) returns (ok: bool)
      requires Valid()
      modifies this, spool
      ensures Valid()
      ensures (View(), ok) == Store(codec, old(View()), m)
      ensures spool != null && limit > 0 ==>
                && ok == codec.encode(m).Some?
                && droppedLimit - old(droppedLimit) == Excess(|old(spool.rows)|, limit)
                && (ok ==> spool.rows == Newest(old(spool.rows) + [codec.encode(m).value], limit))
    {
      if spool == null { return false; }
      StoreKeepsNewest(codec, View(), m);
      hide MakeRoom;
      TrimLocked();
      var encoded := codec.encode(m);
      if encoded == None { return false; }
      spool.Append(encoded.value, Never);
      return true;
    }

    // The body of enqueue_cloud under the publish lock.
    method EnqueueLocked(m: Message, up: bool, publish: nat -> bool)
      requires Valid()
      modifies this, spool
      ensures Valid()
      ensures View() == Section(codec, old(View()), m, up, publish)
    {
      var k := FlushLocked(up, publish);
      if publish(k) {
        delivered := delivered + [m];
        return;
      }
      var ok := SpoolLocked(m);
      if ok { return; }
      dropped := dropped + 1;
    }
  }
}
