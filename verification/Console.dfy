// The firmware's console: bytes gather in a bounded buffer and leave it in messages whose
// data field is bounded too.
module Console {
  import opened BigEndian
  import opened Protocol

  // txRoom, rxRoom: the buffers' capacities; field: the bytes one message can carry.
  datatype Sizes = Sizes(txRoom: nat, rxRoom: nat, field: nat)

  function Min(a: nat, b: nat): nat { if a < b then a else b }

  // ---- Output ----

  // sent: the bytes of every message handed over so far.
  datatype Tx = Tx(buffer: Bytes, sent: Bytes)

  function Process(z: Sizes, s: Tx, ok: bool): Tx
  {
    if s.buffer == [] || !ok then s
    else Tx([], s.sent + s.buffer[..Min(|s.buffer|, z.field)])
  }

  predicate Full(z: Sizes, s: Tx) { |s.buffer| >= z.txRoom }

  function Fill(z: Sizes, s: Tx, data: Bytes): (r: (Tx, nat))
    requires |s.buffer| <= z.txRoom
    ensures r.1 <= |data| && |r.0.buffer| <= z.txRoom
  {
    var n := Min(|data|, z.txRoom - |s.buffer|);
    (s.(buffer := s.buffer + data[..n]), n)
  }

  // oks: whether the sends of the write's first and second attempt succeed. The count is
  // that of a prefix, and falls short only when the buffer is full.
  function Write(z: Sizes, s: Tx, data: Bytes, oks: (bool, bool)): (r: (Tx, nat))
    requires |s.buffer| <= z.txRoom
    ensures r.1 <= |data| && |r.0.buffer| <= z.txRoom && (r.1 < |data| ==> Full(z, r.0))
  {
    if data == [] then (s, 0)
    else
      var s0 := if Full(z, s) then Process(z, s, oks.0) else s;
      var (s1, n) := Fill(z, s0, data);
      if n < |data| && Full(z, s1) then
        var (s2, extra) := Fill(z, Process(z, s1, oks.1), data[n..]);
        (s2, n + extra)
      else (s1, n)
  }

  class ConsoleClass {
    const sizes: Sizes
    var txBuffer: Bytes
    var rxBuffer: Bytes
    ghost var sent: Bytes

    predicate Valid()
      reads this
    {
      |txBuffer| <= sizes.txRoom && |rxBuffer| <= sizes.rxRoom
    }

    ghost function Out(): Tx
      reads this
    {
      Tx(txBuffer, sent)
    }

    constructor (sizes: Sizes)
      ensures Valid() && Out() == Tx([], []) && rxBuffer == [] && this.sizes == sizes
    {
      this.sizes, txBuffer, rxBuffer, sent := sizes, [], [], [];
    }

    method ProcessTx(ok: bool)
      requires Valid()
      modifies this`txBuffer, this`sent
      ensures Valid() && Out() == Process(sizes, old(Out()), ok)
    {
      if txBuffer != [] {
        var toCopy := Min(|txBuffer|, sizes.field);
        if ok {
          sent := sent + txBuffer[..toCopy];
          txBuffer := [];
        }
      }
    }

    method WriteByte(c: Byte, ok: bool) returns (n: nat)
      requires Valid()
      modifies this`txBuffer, this`sent
      ensures Valid() && (Out(), n) == Write(sizes, old(Out()), [c], (ok, false))
    {
      assert [c][..1] == [c] && [c][..0] == [] && [c][0..] == [c];
      if |txBuffer| >= sizes.txRoom {
        ProcessTx(ok);
      }
      if |txBuffer| < sizes.txRoom {
        txBuffer := txBuffer + [c];
        return 1;
      }
      assert txBuffer + [] == txBuffer;
      return 0;
    }

    // Copies as much of the data as there is room for.
    method Insert(data: Bytes) returns (n: nat)
      requires Valid()
      modifies this`txBuffer
      ensures Valid() && (Out(), n) == Fill(sizes, old(Out()), data)
      ensures n <= |data|
    {
      n := Min(|data|, sizes.txRoom - |txBuffer|);
      txBuffer := txBuffer + data[..n];
    }

    method WriteBytes(data: Bytes, oks: (bool, bool)) returns (n: nat)
      requires Valid()
      modifies this`txBuffer, this`sent
      ensures Valid() && (Out(), n) == Write(sizes, old(Out()), data, oks)
    {
      hide Process, Fill;
      if data == [] { return 0; }
      if |txBuffer| >= sizes.txRoom {
        ProcessTx(oks.0);
      }
      n := Insert(data);
      if n < |data| && |txBuffer| >= sizes.txRoom {
        ProcessTx(oks.1);
        var extra := Insert(data[n..]);
        n := n + extra;
      }
    }

    // Incoming bytes beyond the buffer's room are dropped.
    method Push(data: Bytes)
      requires Valid()
      modifies this`rxBuffer
      ensures Valid()
      ensures old(rxBuffer) <= rxBuffer <= old(rxBuffer) + data
      ensures rxBuffer == old(rxBuffer) + data || |rxBuffer| == sizes.rxRoom
    {
      var n := Min(|data|, sizes.rxRoom - |rxBuffer|);
      rxBuffer := rxBuffer + data[..n];
    }

    method Read() returns (c: int)
      requires Valid()
      modifies this`rxBuffer
      ensures Valid()
      ensures if old(rxBuffer) == [] then c == -1 && rxBuffer == [] else c == old(rxBuffer)[0] && rxBuffer == old(rxBuffer)[1..]
    {
      if rxBuffer == [] { return -1; }
      c := rxBuffer[0];
      rxBuffer := rxBuffer[1..];
    }
  }

  // ---- Every run ----

  datatype Event = Put(data: Bytes, oks: (bool, bool)) | Tick(ok: bool)

  datatype State = State(tx: Tx, accepted: Bytes)

  function Step(z: Sizes, s: State, e: Event): (s': State)
    requires |s.tx.buffer| <= z.txRoom
    ensures |s'.tx.buffer| <= z.txRoom
  {
    match e
    case Put(data, oks) => var (tx, n) := Write(z, s.tx, data, oks); State(tx, s.accepted + data[..n])
    case Tick(ok) => s.(tx := Process(z, s.tx, ok))
  }

  function Run(z: Sizes, events: seq<Event>): (s: State)
    ensures |s.tx.buffer| <= z.txRoom
    decreases |events|
  {
    if events == [] then State(Tx([], []), [])
    else Step(z, Run(z, events[..|events| - 1]), events[|events| - 1])
  }

  predicate Conserved(s: State) { All(s.tx) == s.accepted }

  function All(s: Tx): Bytes { s.sent + s.buffer }

  lemma ProcessConserves(z: Sizes, s: Tx, ok: bool)
    requires |s.buffer| <= z.txRoom <= z.field
    ensures All(Process(z, s, ok)) == All(s) && |Process(z, s, ok).buffer| <= z.txRoom
  {
  }

  lemma FillConserves(z: Sizes, s: Tx, data: Bytes)
    requires |s.buffer| <= z.txRoom
    ensures var (s', n) := Fill(z, s, data); All(s') == All(s) + data[..n] && |s'.buffer| <= z.txRoom
  {
  }

  lemma WriteConserves(z: Sizes, s: Tx, data: Bytes, oks: (bool, bool))
    requires |s.buffer| <= z.txRoom <= z.field
    ensures var (s', n) := Write(z, s, data, oks); All(s') == All(s) + data[..n]
  {
    hide Process, All, Full, Fill;
    if data != [] {
      ProcessConserves(z, s, oks.0);
      var s0 := if Full(z, s) then Process(z, s, oks.0) else s;
      FillConserves(z, s0, data);
      var (s1, n) := Fill(z, s0, data);
      ProcessConserves(z, s1, oks.1);
      var s2 := Process(z, s1, oks.1);
      FillConserves(z, s2, data[n..]);
      var extra := Fill(z, s2, data[n..]).1;
      assert data[..n] + data[n..][..extra] == data[..n + extra];
      assert All(s) + data[..n] + data[n..][..extra] == All(s) + (data[..n] + data[n..][..extra]);
    }
  }

  // A successful send hands over the buffer's bytes, as many as the field carries, and empties it;
  // a failed one keeps everything.
  lemma ProcessDoes(z: Sizes, s: Tx, ok: bool)
    ensures ok ==> Process(z, s, ok).buffer == []
    ensures ok && |s.buffer| <= z.field ==> Process(z, s, ok).sent == s.sent + s.buffer
    ensures ok && |s.buffer| > z.field ==> Process(z, s, ok).sent == s.sent + s.buffer[..z.field]
    ensures !ok ==> Process(z, s, ok) == s
  {
  }

  // If the buffer fits the field, no pattern of send failures loses, repeats or reorders a byte.
  lemma {:induction false} RunConserves(z: Sizes, events: seq<Event>)
    requires z.txRoom <= z.field
    ensures Conserved(Run(z, events))
    decreases |events|
  {
    if events != [] {
      var s, e := Run(z, events[..|events| - 1]), events[|events| - 1];
      RunConserves(z, events[..|events| - 1]);
      match e
      case Put(data, oks) => WriteConserves(z, s.tx, data, oks);
      case Tick(ok) =>
    }
  }

  // A larger buffer does lose bytes: one full write, one message.
  lemma LargerBufferLoses(z: Sizes, data: Bytes)
    requires z.txRoom > z.field && |data| == z.txRoom
    ensures var s := Run(z, [Put(data, (true, true)), Tick(true)]);
            s.accepted == data && s.tx == Tx([], data[..z.field]) && !Conserved(s)
  {
    var events := [Put(data, (true, true)), Tick(true)];
    assert events[..1] == [events[0]] && events[..1][..0] == [];
    var s0 := Run(z, []);
    assert Run(z, events[..1]) == Step(z, s0, events[0]);
    assert data[..|data|] == data && [] + data == data;
    assert Run(z, events[..1]) == State(Tx(data, []), data);
  }

  // So conservation over all runs is exactly a matter of the two sizes.
  lemma ConservesIff(z: Sizes)
    ensures (forall events :: Conserved(Run(z, events))) <==> z.txRoom <= z.field
  {
    if z.txRoom <= z.field {
      forall events ensures Conserved(Run(z, events)) { RunConserves(z, events); }
    } else {
      LargerBufferLoses(z, seq(z.txRoom, _ => 0));
    }
  }
}
