// The streaming SHA-256 object of tools/arduino_stub/include/SHA256.h, with its
// two HMAC entry points.
module Sha256 {
  import opened Sha256Spec
  import BigEndian

  lemma CompressAppend(m: seq<Octet>, block: seq<Octet>)
    requires |m| % 64 == 0 && |block| == 64
    ensures CompressAll(H0, m + block) == Compress(CompressAll(H0, m), block)
  {
    assert (m + block)[..|m|] == m && (m + block)[|m|..] == block;
  }

  lemma CompressNothing()
    ensures CompressAll(H0, []) == H0
  {
  }

  lemma LengthStep(n: nat)
    ensures (8 * n % TWO64 + 512) % TWO64 == 8 * (n + 64) % TWO64
  {
  }

  lemma LengthSum(n: nat, k: nat)
    ensures (8 * n % TWO64 + 8 * k) % TWO64 == 8 * (n + k) % TWO64
  {
  }

  lemma PaddingCases(n: nat, tail: nat)
    requires tail < 64 && tail <= n && (n - tail) % 64 == 0
    ensures ZeroCount(n) == if tail + 1 > 56 then 63 - tail + 56 else 55 - tail
  {
    var q := (n - tail) / 64;
    assert n == 64 * q + tail;
    assert n % 64 == tail;
  }

  // The octets of the length field, from the least significant end.
  lemma FieldAt(n: nat, i: nat)
    requires i < 8
    ensures BigEndian.Pow256(i) > 0
    ensures Octets(BigEndian.Digits(n, 8))[7 - i] == (n / BigEndian.Pow256(i) % 256) as Octet
  {
    BigEndian.DigitAt(n, 8, i);
  }

  // ---- The expressions of the code, one by one ----

  method Choose(e: Word, f: Word, g: Word) returns (r: Word)
    ensures r == Ch(e, f, g)
  {
    r := (e & f) ^ (!e & g);
  }

  method Majority(a: Word, b: Word, c: Word) returns (r: Word)
    ensures r == Maj(a, b, c)
  {
    r := (a & b) ^ (a & c) ^ (b & c);
  }

  method MixA(a: Word) returns (r: Word)
    ensures r == BigSigma0(a)
  {
    hide Rotr;
    r := Rotr(a, 2) ^ Rotr(a, 13) ^ Rotr(a, 22);
  }

  method MixE(e: Word) returns (r: Word)
    ensures r == BigSigma1(e)
  {
    hide Rotr;
    r := Rotr(e, 6) ^ Rotr(e, 11) ^ Rotr(e, 25);
  }

  method MixSchedule0(w: Word) returns (r: Word)
    ensures r == SmallSigma0(w)
  {
    hide Rotr;
    r := Rotr(w, 7) ^ Rotr(w, 18) ^ (w >> 3);
  }

  method MixSchedule1(w: Word) returns (r: Word)
    ensures r == SmallSigma1(w)
  {
    hide Rotr;
    r := Rotr(w, 17) ^ Rotr(w, 19) ^ (w >> 10);
  }

  class Sha256 {
    const state: array<Word>
    const buffer: array<Octet>
    const ipad: array<Octet>
    const opad: array<Octet>
    var bufferLen: nat
    var bitLength: nat
    var hmacActive: bool
    // Everything fed in since the last reset.
    ghost var message: seq<Octet>

    ghost predicate Shape()
    {
      && state.Length == 8 && buffer.Length == 64 && ipad.Length == 64 && opad.Length == 64
      && buffer != ipad && buffer != opad && ipad != opad
    }

    ghost function Working(): Vars
      requires Shape()
      reads state
    {
      Vars(state[0], state[1], state[2], state[3], state[4], state[5], state[6], state[7])
    }

    // The hash state covers the whole blocks of m and the buffer holds the rest.
    ghost predicate Covers(m: seq<Octet>)
      reads `bufferLen, state, buffer
    {
      && Shape()
      && bufferLen <= 64 && bufferLen <= |m|
      && var whole := |m| - bufferLen;
      && whole % 64 == 0
      && buffer[..bufferLen] == m[whole..]
      && Working() == CompressAll(H0, m[..whole])
    }

    ghost predicate Valid()
      reads `bufferLen, `bitLength, `message, state, buffer
    {
      && bufferLen < 64
      && Covers(message)
      && bitLength == 8 * (|message| - bufferLen) % TWO64
    }

    constructor ()
      ensures Shape() && Valid() && message == []
      ensures fresh(state) && fresh(buffer) && fresh(ipad) && fresh(opad)
    {
      state := new Word[8];
      buffer := new Octet[64](_ => 0);
      ipad := new Octet[64](_ => 0);
      opad := new Octet[64](_ => 0);
      hmacActive := false;
      new;
      Reset();
    }

    method LoadInitialValue()
      requires Shape()
      modifies state
      ensures Working() == H0
    {
      state[0] := 0x6A09E667;
      state[1] := 0xBB67AE85;
      state[2] := 0x3C6EF372;
      state[3] := 0xA54FF53A;
      state[4] := 0x510E527F;
      state[5] := 0x9B05688C;
      state[6] := 0x1F83D9AB;
      state[7] := 0x5BE0CD19;
    }

    method Reset()
      requires Shape()
      modifies this`bitLength, this`bufferLen, this`message, state
      ensures Valid() && message == []
    {
      hide CompressAll, Working, Valid;
      LoadInitialValue();
      bitLength := 0;
      bufferLen := 0;
      message := [];
      NothingHashed();
    }

    lemma NothingHashed()
      requires Shape() && Working() == H0 && bufferLen == bitLength == 0 && message == []
      ensures Valid()
    {
      hide CompressAll, Working;
      assert message[..0] == [] == buffer[..0];
      CompressNothing();
    }

    // The message schedule of the buffered block.
    method Expand() returns (w: array<Word>)
      requires Shape()
      ensures fresh(w) && w.Length == 64
      ensures w[..] == Schedule(buffer[..], 64)
    {
      w := new Word[64];
      LoadWords(w);
      Extend(w, buffer[..]);
      assert w[..64] == w[..];
    }

    method LoadWords(w: array<Word>)
      requires Shape() && w.Length == 64 && w != state
      modifies w
      ensures w[..16] == Schedule(buffer[..], 16)
    {
      hide NextWord, WordAt;
      ghost var block := buffer[..];
      for i := 0 to 16
        invariant w[..i] == Schedule(block, i)
      {
        w[i] := LoadWord(i);
        assert w[..i + 1] == w[..i] + [w[i]];
      }
    }

    // Four octets, most significant first.
    method LoadWord(i: nat) returns (word: Word)
      requires Shape() && i < 16
      ensures word == WordAt(buffer[..], i)
    {
      word := ((buffer[i * 4] as Word) << 24) | ((buffer[i * 4 + 1] as Word) << 16)
              | ((buffer[i * 4 + 2] as Word) << 8) | (buffer[i * 4 + 3] as Word);
    }

    static method Extend(w: array<Word>, ghost block: seq<Octet>)
      requires w.Length == 64 && |block| == 64 && w[..16] == Schedule(block, 16)
      modifies w
      ensures w[..64] == Schedule(block, 64)
    {
      hide WordAt;
      for i := 16 to 64
        invariant w[..i] == Schedule(block, i)
      {
        var s0 := MixSchedule0(w[i - 15]);
        var s1 := MixSchedule1(w[i - 2]);
        ghost var before := w[..i];
        w[i] := Plus(Plus(Plus(w[i - 16], s0), w[i - 7]), s1);
        assert w[i] == NextWord(before) && w[..i + 1] == before + [w[i]];
      }
    }

    // The 64 rounds, on eight working variables that are shifted in place.
    method RunRounds(w: array<Word>) returns (r: Vars)
      requires Shape() && w.Length == 64
      ensures r == Rounds(Working(), w[..], 64)
    {
      var a, b, c, d := state[0], state[1], state[2], state[3];
      var e, f, g, h := state[4], state[5], state[6], state[7];
      ghost var v := Working();
      for i := 0 to 64
        invariant Vars(a, b, c, d, e, f, g, h) == Rounds(v, w[..], i)
      {
        var S1 := MixE(e);
        var ch := Choose(e, f, g);
        var temp1 := Plus(Plus(Plus(Plus(h, S1), ch), RoundConstant(i)), w[i]);
        var S0 := MixA(a);
        var maj := Majority(a, b, c);
        var temp2 := Plus(S0, maj);
        h := g;
        g := f;
        f := e;
        e := Plus(d, temp1);
        d := c;
        c := b;
        b := a;
        a := Plus(temp1, temp2);
      }
      r := Vars(a, b, c, d, e, f, g, h);
    }

    // Folding the buffered block into the hash state is the compression function.
    method Transform()
      requires Shape()
      modifies state
      ensures Working() == Compress(old(Working()), buffer[..])
    {
      var w := Expand();
      var r := RunRounds(w);
      state[0] := Plus(state[0], r.a);
      state[1] := Plus(state[1], r.b);
      state[2] := Plus(state[2], r.c);
      state[3] := Plus(state[3], r.d);
      state[4] := Plus(state[4], r.e);
      state[5] := Plus(state[5], r.f);
      state[6] := Plus(state[6], r.g);
      state[7] := Plus(state[7], r.h);
      assert Working() == AddVars(old(Working()), r);
    }

    method CopyIn(chunk: seq<Octet>, ghost m: seq<Octet>)
      requires Covers(m) && bufferLen + |chunk| <= 64
      modifies this`bufferLen, buffer
      ensures Covers(m + chunk) && bufferLen == old(bufferLen) + |chunk|
    {
      hide CompressAll;
      ghost var whole, had := |m| - bufferLen, buffer[..bufferLen];
      forall i | 0 <= i < |chunk| {
        buffer[bufferLen + i] := chunk[i];
      }
      bufferLen := bufferLen + |chunk|;
      assert buffer[..bufferLen] == had + chunk == (m + chunk)[whole..];
      assert (m + chunk)[..whole] == m[..whole];
    }

    method FlushBlock(ghost m: seq<Octet>)
      requires Covers(m) && bufferLen == 64
      modifies this`bufferLen, state
      ensures Covers(m) && bufferLen == 0
    {
      hide Compress, CompressAll;
      ghost var whole := |m| - 64;
      ghost var front, block := m[..whole], m[whole..];
      assert buffer[..] == block;
      Transform();
      CompressAppend(front, block);
      assert front + block == m == m[..|m|];
      bufferLen := 0;
      assert |m| % 64 == 0 && Working() == CompressAll(H0, m);
    }

    lemma Aligned()
      requires Covers(message)
      ensures Shape() && bufferLen <= |message| && (|message| - bufferLen) % 64 == 0
    {
    }

    method Absorb(chunk: seq<Octet>)
      requires Valid() && bufferLen + |chunk| <= 64
      modifies this`bufferLen, this`bitLength, this`message, state, buffer
      ensures Valid() && message == old(message) + chunk
    {
      hide Covers;
      Aligned();
      LengthStep(|message| - bufferLen);
      CopyIn(chunk, message);
      message := message + chunk;
      if bufferLen == 64 {
        FlushBlock(message);
        bitLength := (bitLength + 64 * 8) % TWO64;
      }
    }

    // Any split of a message into calls accumulates the message.
    method Update(data: seq<Octet>)
      requires Valid()
      modifies this`bufferLen, this`bitLength, this`message, state, buffer
      ensures Valid() && message == old(message) + data
    {
      hide CompressAll;
      var rest := data;
      while |rest| > 0
        invariant Valid() && message + rest == old(message) + data
      {
        var toCopy := 64 - bufferLen;
        if toCopy > |rest| {
          toCopy := |rest|;
        }
        assert message + rest == message + rest[..toCopy] + rest[toCopy..];
        Absorb(rest[..toCopy]);
        rest := rest[toCopy..];
      }
    }

    method ZeroFill(upTo: nat, ghost m: seq<Octet>)
      requires Covers(m) && bufferLen <= upTo <= 64
      modifies this`bufferLen, buffer
      ensures Covers(m + Zeros(upTo - old(bufferLen))) && bufferLen == upTo
    {
      hide CompressAll;
      ghost var start := bufferLen;
      assert m + Zeros(0) == m;
      while bufferLen < upTo
        invariant start <= bufferLen <= upTo
        invariant Covers(m + Zeros(bufferLen - start))
      {
        ghost var k := bufferLen - start;
        assert m + Zeros(k) + [0] == m + Zeros(k + 1);
        CopyIn([0], m + Zeros(k));
      }
    }

    // The 64-bit length, most significant octet first, in the last eight octets.
    method WriteLength()
      requires Shape()
      modifies buffer
      ensures buffer[..] == old(buffer[..56]) + Octets(BigEndian.Digits(bitLength, 8))
    {
      hide BigEndian.Digits, BigEndian.Pow256, Octets;
      ghost var field := Octets(BigEndian.Digits(bitLength, 8));
      for i := 0 to 8
        invariant buffer[..56] == old(buffer[..56])
        invariant buffer[64 - i..] == field[8 - i..]
      {
        FieldAt(bitLength, i);
        buffer[63 - i] := (bitLength / BigEndian.Pow256(i) % 256) as Octet;
        assert buffer[63 - i..] == [buffer[63 - i]] + buffer[64 - i..];
      }
      assert buffer[..] == buffer[..56] + buffer[56..];
    }

    // One or two blocks of padding, leaving the length field to fill.
    method PadBuffer()
      requires bufferLen < 64 && Covers(message)
      modifies this`bufferLen, state, buffer
      ensures Covers(message + [0x80] + Zeros(ZeroCount(|message|))) && bufferLen == 56
    {
      hide Covers, ZeroCount;
      Aligned();
      ghost var m, start := message + [0x80], bufferLen;
      PaddingCases(|message|, start);
      CopyIn([0x80], message);
      if bufferLen > 56 {
        ghost var z := 63 - start;
        ZeroFill(64, m);
        FlushBlock(m + Zeros(z));
        ZeroFill(56, m + Zeros(z));
        assert m + Zeros(z) + Zeros(56) == m + Zeros(z + 56);
      } else {
        ZeroFill(56, m);
      }
    }

    method EmitDigest() returns (digest: seq<Octet>)
      requires Shape()
      ensures digest == Digest(state[..])
    {
      digest := [];
      for i := 0 to 8
        invariant digest == Digest(state[..i])
      {
        assert state[..i + 1][..i] == state[..i];
        digest := digest + WordOctets(state[i]);
      }
      assert state[..8] == state[..];
    }

    method LastBlock(ghost m: seq<Octet>)
      requires Covers(m) && bufferLen == 56
      modifies state, buffer
      ensures (|m| + 8) % 64 == 0
      ensures Working() == CompressAll(H0, m + Octets(BigEndian.Digits(bitLength, 8)))
    {
      hide Compress, CompressAll, Octets, BigEndian.Digits;
      ghost var field := Octets(BigEndian.Digits(bitLength, 8));
      ghost var front, tail := m[..|m| - 56], m[|m| - 56..];
      WriteLength();
      assert buffer[..] == tail + field;
      Transform();
      CompressAppend(front, tail + field);
      assert front + (tail + field) == m + field;
    }

    method FinishBlocks()
      requires Valid()
      modifies this`bufferLen, this`bitLength, state, buffer
      ensures Working() == CompressAll(H0, Pad(message))
    {
      hide Covers, CompressAll, ZeroCount, BigEndian.Digits;
      Aligned();
      LengthSum(|message| - bufferLen, bufferLen);
      bitLength := (bitLength + 8 * bufferLen) % TWO64;
      PadBuffer();
      ghost var m := message + [0x80] + Zeros(ZeroCount(|message|));
      LastBlock(m);
      assert m + LengthField(|message|) == Pad(message);
    }

    // The streamed digest is the FIPS 180-4 hash of the whole message.
    method Finalize(len: nat) returns (digest: seq<Octet>)
      requires Valid()
      modifies this`bufferLen, this`bitLength, state, buffer
      ensures digest == Truncate(Hash(message), len)
    {
      hide Covers, CompressAll, Digest, Pad;
      Aligned();
      FinishBlocks();
      assert state[..] == Working().Words();
      var full := EmitDigest();
      digest := if len < 32 then full[..len] else full;
    }

    // An independent copy of a live hash object.
    constructor Copy(other: Sha256)
      requires other.Valid()
      ensures Valid() && message == other.message
      ensures fresh(state) && fresh(buffer) && fresh(ipad) && fresh(opad)
    {
      state := new Word[8];
      buffer := new Octet[64](_ => 0);
      ipad := new Octet[64](_ => 0);
      opad := new Octet[64](_ => 0);
      new;
      Assign(other);
    }

    method Assign(other: Sha256)
      requires Shape() && other.Valid()
      requires state != other.state && buffer != other.buffer && {ipad, opad} !! {other.buffer, other.ipad, other.opad}
      modifies this, state, buffer, ipad, opad
      ensures Valid() && message == other.message
    {
      other.ValidShape();
      hide Covers, Working, Valid;
      AssignPads(other);
      AssignBlock(other);
      bufferLen, bitLength, hmacActive := other.bufferLen, other.bitLength, other.hmacActive;
      message := other.message;
      SameValid(other);
    }

    lemma ValidShape()
      requires Valid()
      ensures Shape()
    {
    }

    lemma SameValid(other: Sha256)
      requires Shape() && other.Valid() && Working() == other.Working() && buffer[..] == other.buffer[..]
      requires bufferLen == other.bufferLen && bitLength == other.bitLength && message == other.message
      ensures Valid()
    {
      hide CompressAll, Working;
      assert buffer[..bufferLen] == other.buffer[..][..bufferLen];
    }

    method AssignBlock(other: Sha256)
      requires Shape() && other.Shape() && state != other.state && buffer != other.buffer
      modifies state, buffer
      ensures Working() == other.Working() && buffer[..] == other.buffer[..]
    {
      forall i | 0 <= i < 8 { state[i] := other.state[i]; }
      forall i | 0 <= i < 64 { buffer[i] := other.buffer[i]; }
    }

    method AssignPads(other: Sha256)
      requires Shape() && other.Shape() && {ipad, opad} !! {other.ipad, other.opad}
      modifies ipad, opad
      ensures ipad[..] == other.ipad[..] && opad[..] == other.opad[..]
    {
      forall i | 0 <= i < 64 { ipad[i] := other.ipad[i]; }
      forall i | 0 <= i < 64 { opad[i] := other.opad[i]; }
    }

    // The inner hash of RFC 2104 has absorbed the inner pad and then text.
    ghost predicate Keyed(key: seq<Octet>, text: seq<Octet>)
      reads `bufferLen, `bitLength, `message, state, buffer, opad
    {
      && Shape() && Valid()
      && message == XorPad(KeyBlock(key), 0x36) + text
      && opad[..] == XorPad(KeyBlock(key), 0x5C)
    }

    method ResetHmac(key: seq<Octet>)
      requires Shape()
      modifies this, state, buffer, ipad, opad
      ensures Keyed(key, [])
    {
      hide Hash, Valid;
      var keyBlock := MakeKeyBlock(key);
      for i := 0 to 64
        invariant ipad[..i] == XorPad(KeyBlock(key), 0x36)[..i]
        invariant opad[..i] == XorPad(KeyBlock(key), 0x5C)[..i]
      {
        ipad[i] := keyBlock[i] ^ 0x36;
        opad[i] := keyBlock[i] ^ 0x5C;
      }
      assert ipad[..64] == ipad[..] && opad[..64] == opad[..];
      Reset();
      ghost var pad := ipad[..];
      Update(ipad[..]);
      assert message == pad == pad + [];
      hmacActive := true;
    }

    // Appending text to a keyed hash.
    method UpdateHmac(data: seq<Octet>, ghost key: seq<Octet>, ghost text: seq<Octet>)
      requires Keyed(key, text)
      modifies this`bufferLen, this`bitLength, this`message, state, buffer
      ensures Keyed(key, text + data)
    {
      hide Hash, Valid;
      Update(data);
      assert XorPad(KeyBlock(key), 0x36) + text + data == XorPad(KeyBlock(key), 0x36) + (text + data);
    }

    method FinalizeHmac(len: nat, ghost key: seq<Octet>, ghost text: seq<Octet>) returns (digest: seq<Octet>)
      requires Keyed(key, text)
      modifies this, state, buffer
      ensures digest == Truncate(Rfc2104(key, text), len)
    {
      hide Hash, Valid;
      var innerDigest := Finalize(32);
      ghost var pad := XorPad(KeyBlock(key), 0x5C);
      var outer := new Sha256();
      outer.Update(opad[..]);
      outer.Update(innerDigest);
      assert outer.message == [] + pad + innerDigest == pad + innerDigest;
      digest := outer.Finalize(len);
      hmacActive := false;
    }
  }

  // The key padded, or hashed and padded, to one block.
  method MakeKeyBlock(key: seq<Octet>) returns (block: seq<Octet>)
    ensures block == KeyBlock(key)
  {
    hide Hash, Sha256.Valid;
    if |key| > 64 {
      var tmp := new Sha256();
      tmp.Update(key);
      assert [] + key == key;
      var hashed := tmp.Finalize(32);
      block := hashed + Zeros(32);
    } else {
      block := key + Zeros(64 - |key|);
    }
  }
}
