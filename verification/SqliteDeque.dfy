// A bounded queue kept in a database file, with its length cached beside it. Any storage
// error makes the operation delete the file and start over.
module SqliteDeque {
  import opened Wrappers

  // The last n elements.
  function Newest<T>(s: seq<T>, n: nat): seq<T>
  {
    if |s| <= n then s else s[|s| - n..]
  }

  function Bounded<T>(s: seq<T>, maxlen: Option<nat>): seq<T>
  {
    if maxlen.None? then s else Newest(s, maxlen.value)
  }

  // The steps at which an operation may meet a storage error.
  datatype Fault = Never | Connect | Schema | Statement | Trim | Commit

  // The queue the operation is applied to.
  function Base<T>(s: seq<T>, struck: bool): seq<T> { if struck then [] else s }

  class SqliteDeque<T> {
    const maxlen: Option<nat>
    var rows: seq<T>       // the committed table, oldest first
    var length: nat

    predicate Valid()
      reads this
    {
      length == |rows|
    }

    // Opening a file that already holds `stored`. A storage error is swallowed and leaves the
    // cached length at zero, so the object is consistent unless that error hid some rows.
    constructor (stored: seq<T>, maxlen: Option<nat>, fault: Fault)
      ensures rows == stored && this.maxlen == maxlen
      ensures Valid() <==> fault == Never || stored == []
    {
      this.maxlen := maxlen;
      rows := stored;
      length := if fault == Never then |stored| else 0;
    }

    method Recreate()
      modifies this
      ensures rows == [] && Valid()
    {
      rows := [];
      length := 0;
    }

    // One pass of _append_impl inside a transaction; false is a storage error.
    method TryAppend(item: T, fault: Fault) returns (ok: bool)
      requires Valid()
      modifies this
      ensures ok == !AppendStruck(old(length), fault)
      ensures ok ==> Valid() && rows == Bounded(old(rows) + [item], maxlen)
      ensures !ok ==> rows == old(rows)
    {
      if fault == Connect || fault == Schema || fault == Statement { return false; }
      var work := rows + [item];
      length := length + 1;
      if maxlen.Some? && length > maxlen.value {
        if fault == Trim { return false; }
        var toDelete := length - maxlen.value;
        work := work[toDelete..];
        length := maxlen.value;
      }
      if fault == Commit { return false; }
      rows := work;
      return true;
    }

    // Whether an append that starts at this length meets the fault.
    predicate AppendStruck(len: nat, fault: Fault)
    {
      fault != Never && (fault == Trim ==> maxlen.Some? && len + 1 > maxlen.value)
    }

    method Append(item: T, fault: Fault)
      requires Valid()
      modifies this
      ensures Valid()
      ensures rows == Apply(old(rows), Push(item, AppendStruck(old(length), fault)), maxlen)
      ensures rows == Bounded(if fault != Never && AppendStruck(old(length), fault) then [item] else old(rows) + [item], maxlen)
    {
      assert [] + [item] == [item];
      var ok := TryAppend(item, fault);
      if !ok {
        Recreate();
        ok := TryAppend(item, Never);
      }
    }

    // None is the IndexError of an empty queue. Storage errors after it cannot happen.
    method TryPop(fault: Fault) returns (ok: bool, item: Option<T>)
      modifies this
      ensures ok == !ReadStruck(old(rows), fault)
      ensures ok && old(rows) == [] ==> item == None && unchanged(this)
      ensures ok && old(rows) != [] ==> item == Some(old(rows)[0]) && rows == old(rows)[1..]
      ensures ok && old(rows) != [] ==> length == if old(length) == 0 then 0 else old(length) - 1
      ensures !ok ==> rows == old(rows)
    {
      if fault == Connect || fault == Schema || fault == Statement { return false, None; }
      if rows == [] { return true, None; }
      var work := rows[1..];
      length := if length == 0 then 0 else length - 1;
      if fault == Commit { return false, None; }
      item := Some(rows[0]);
      rows := work;
      ok := true;
    }

    static predicate ReadStruck(rows: seq<T>, fault: Fault)
    {
      fault != Never && fault != Trim && (fault == Commit ==> rows != [])
    }

    method PopLeft(fault: Fault) returns (item: Option<T>)
      requires Valid()
      modifies this
      ensures Valid()
      ensures var base := Base(old(rows), ReadStruck(old(rows), fault));
              item == if base == [] then None else Some(base[0])
      ensures rows == Apply(old(rows), Pop(ReadStruck(old(rows), fault)), maxlen)
      ensures fault == Never && old(rows) != [] ==> item == Some(old(rows)[0]) && rows == old(rows)[1..]
      ensures ReadStruck(old(rows), fault) ==> item == None && rows == []
    {
      var ok;
      ok, item := TryPop(fault);
      if !ok {
        Recreate();
        ok, item := TryPop(Never);
      }
    }

    method Peek(fault: Fault) returns (item: Option<T>)
      requires Valid()
      modifies this
      ensures Valid() && rows == Base(old(rows), ReadStruck(old(rows), fault))
      ensures item == if rows == [] then None else Some(rows[0])
    {
      if fault == Connect || fault == Schema || fault == Statement || (fault == Commit && rows != []) {
        Recreate();
      }
      return if rows == [] then None else Some(rows[0]);
    }

    method Length() returns (n: nat)
      requires Valid()
      ensures n == |rows|
    {
      return length;
    }

    method Clear()
      modifies this
      ensures rows == [] && Valid()
    {
      Recreate();
    }
  }

  // ---- Any sequence of operations ----

  datatype Op<T> = Push(item: T, struck: bool) | Pop(struck: bool) | Wipe

  function Apply<T>(s: seq<T>, op: Op<T>, maxlen: Option<nat>): seq<T>
  {
    match op
    case Push(item, struck) => Bounded(Base(s, struck) + [item], maxlen)
    case Pop(struck) => var base := Base(s, struck); if base == [] then [] else base[1..]
    case Wipe => []
  }

  function Run<T>(s: seq<T>, ops: seq<Op<T>>, maxlen: Option<nat>): seq<T>
    decreases |ops|
  {
    if ops == [] then s else Apply(Run(s, ops[..|ops| - 1], maxlen), ops[|ops| - 1], maxlen)
  }

  // Everything ever pushed, in order.
  function Pushed<T>(ops: seq<Op<T>>): seq<T>
    decreases |ops|
  {
    if ops == [] then []
    else Pushed(ops[..|ops| - 1]) + match ops[|ops| - 1] case Push(item, _) => [item] case _ => []
  }

  predicate IsSuffix<T(==)>(a: seq<T>, b: seq<T>)
  {
    |a| <= |b| && a == b[|b| - |a|..]
  }

  // Through any mix of operations and faults, the queue holds the most recent part of what
  // was stored and pushed: nothing is reordered, invented or kept past something newer.
  lemma {:induction false} KeepsNewest<T>(s: seq<T>, ops: seq<Op<T>>, maxlen: Option<nat>)
    ensures IsSuffix(Run(s, ops, maxlen), s + Pushed(ops))
    ensures maxlen.Some? && |s| <= maxlen.value ==> |Run(s, ops, maxlen)| <= maxlen.value
  {
    if ops == [] {
      assert s + Pushed(ops) == s;
    } else {
      var front, op := ops[..|ops| - 1], ops[|ops| - 1];
      KeepsNewest(s, front, maxlen);
      var q, all := Run(s, front, maxlen), s + Pushed(front);
      hide IsSuffix;
      if op.Push? {
        SuffixBase(q, all, op.struck);
        SuffixGrows(Base(q, op.struck), all, op.item);
        assert s + Pushed(ops) == all + [op.item];
        SuffixBounded(Base(q, op.struck) + [op.item], all + [op.item], maxlen);
      } else {
        assert s + Pushed(ops) == all;
        SuffixPop(q, all, op, maxlen);
      }
    }
  }

  lemma SuffixBase<T>(a: seq<T>, b: seq<T>, struck: bool)
    requires IsSuffix(a, b)
    ensures IsSuffix(Base(a, struck), b)
  {
  }

  lemma SuffixPop<T>(a: seq<T>, b: seq<T>, op: Op<T>, maxlen: Option<nat>)
    requires IsSuffix(a, b) && !op.Push?
    ensures IsSuffix(Apply(a, op, maxlen), b)
  {
  }

  lemma SuffixGrows<T>(a: seq<T>, b: seq<T>, x: T)
    requires IsSuffix(a, b)
    ensures IsSuffix(a + [x], b + [x])
  {
  }

  lemma SuffixBounded<T>(a: seq<T>, b: seq<T>, maxlen: Option<nat>)
    requires IsSuffix(a, b)
    ensures IsSuffix(Bounded(a, maxlen), b)
  {
  }

  // Taking everything out, one pop at a time.
  function Popped<T>(s: seq<T>, n: nat, maxlen: Option<nat>): seq<T>
    decreases n
  {
    if n == 0 then s else Popped(Apply(s, Pop(false), maxlen), n - 1, maxlen)
  }

  // First in, first out: after n pops the queue is what was behind the first n.
  lemma {:induction false} PopsFromFront<T>(s: seq<T>, n: nat, maxlen: Option<nat>)
    requires n <= |s|
    ensures Popped(s, n, maxlen) == s[n..]
    decreases n
  {
    if n > 0 {
      PopsFromFront(s[1..], n - 1, maxlen);
      assert s[1..][n - 1..] == s[n..];
    }
  }

  // Without faults and removals it is exactly the newest maxlen of them.
  lemma {:induction false} PushesKeepNewest<T>(s: seq<T>, ops: seq<Op<T>>, maxlen: nat)
    requires |s| <= maxlen && forall op :: op in ops ==> op.Push? && !op.struck
    ensures Run(s, ops, Some(maxlen)) == Newest(s + Pushed(ops), maxlen)
  {
    if ops == [] {
      assert s + Pushed(ops) == s;
    } else {
      var front, op := ops[..|ops| - 1], ops[|ops| - 1];
      PushesKeepNewest(s, front, maxlen);
      hide Newest;
      assert op in ops && s + Pushed(ops) == s + Pushed(front) + [op.item];
      NewestStep(s + Pushed(front), op.item, maxlen);
    }
    NewestShort(s, maxlen);
  }

  lemma NewestShort<T>(s: seq<T>, n: nat)
    requires |s| <= n
    ensures Newest(s, n) == s
  {
  }

  lemma NewestStep<T>(s: seq<T>, x: T, n: nat)
    ensures Newest(Newest(s, n) + [x], n) == Newest(s + [x], n)
  {
  }
}
