// HMAC built from two hash objects, as tools/arduino_stub/include/HMAC.h does,
// and its agreement with the single-object form of SHA256.h.
module HmacPair {
  import opened Sha256Spec
  import opened Sha256

  class Hmac {
    const scratch: Sha256
    const inner: Sha256
    const outer: Sha256

    ghost predicate Shape()
    {
      && scratch.Shape() && inner.Shape() && outer.Shape()
      && inner != outer && inner != scratch && outer != scratch
      && inner.state != outer.state && inner.buffer != outer.buffer
    }

    // inner has absorbed the inner pad and text; outer has absorbed the outer pad.
    ghost predicate Keyed(key: seq<Octet>, text: seq<Octet>)
      reads inner`bufferLen, inner`bitLength, inner`message, inner.state, inner.buffer
      reads outer`bufferLen, outer`bitLength, outer`message, outer.state, outer.buffer
    {
      && Shape() && inner.Valid() && outer.Valid()
      && inner.message == XorPad(KeyBlock(key), 0x36) + text
      && outer.message == XorPad(KeyBlock(key), 0x5C)
    }

    constructor (scratch: Sha256)
      requires scratch.Shape()
      ensures Shape() && this.scratch == scratch
      ensures fresh(inner) && fresh(inner.state) && fresh(inner.buffer)
      ensures fresh(outer) && fresh(outer.state) && fresh(outer.buffer)
    {
      hide Sha256.Valid;
      this.scratch := scratch;
      inner := new Sha256();
      outer := new Sha256();
    }

    method HashedKeyBlock(key: seq<Octet>) returns (block: seq<Octet>)
      requires scratch.Shape()
      modifies scratch, scratch.state, scratch.buffer
      ensures block == KeyBlock(key)
    {
      hide Hash, Sha256.Valid;
      if |key| > 64 {
        scratch.Reset();
        scratch.Update(key);
        assert scratch.message == [] + key == key;
        var hashed := scratch.Finalize(32);
        block := hashed + Zeros(32);
      } else {
        block := key + Zeros(64 - |key|);
      }
    }

    method Reset(key: seq<Octet>)
      requires Shape()
      modifies scratch, scratch.state, scratch.buffer
      modifies inner, inner.state, inner.buffer, outer, outer.state, outer.buffer
      ensures Keyed(key, [])
    {
      hide Hash, Sha256.Valid, XorPad;
      var keyBlock := HashedKeyBlock(key);
      var ipad, opad := MakePads(keyBlock);
      inner.Reset();
      inner.Update(ipad);
      assert [] + ipad == ipad + [];
      outer.Reset();
      outer.Update(opad);
      assert [] + opad == opad;
    }

    method Update(data: seq<Octet>, ghost key: seq<Octet>, ghost text: seq<Octet>)
      requires Keyed(key, text)
      modifies inner, inner.state, inner.buffer
      ensures Keyed(key, text + data)
    {
      hide Hash, Sha256.Valid;
      inner.Update(data);
      assert XorPad(KeyBlock(key), 0x36) + text + data == XorPad(KeyBlock(key), 0x36) + (text + data);
    }

    method Finalize(len: nat, ghost key: seq<Octet>, ghost text: seq<Octet>) returns (digest: seq<Octet>)
      requires Keyed(key, text)
      modifies inner, inner.state, inner.buffer
      ensures digest == Truncate(Rfc2104(key, text), len)
    {
      hide Hash, Sha256.Valid;
      var innerDigest := inner.Finalize(32);
      var outerWork := new Sha256.Copy(outer);
      outerWork.Update(innerDigest);
      var finalDigest := outerWork.Finalize(32);
      digest := if len < 32 then finalDigest[..len] else finalDigest;
    }
  }

  method MakePads(keyBlock: seq<Octet>) returns (ipad: seq<Octet>, opad: seq<Octet>)
    requires |keyBlock| == 64
    ensures ipad == XorPad(keyBlock, 0x36) && opad == XorPad(keyBlock, 0x5C)
  {
    var i, o := new Octet[64], new Octet[64];
    for k := 0 to 64
      invariant forall j :: 0 <= j < k ==> i[j] == keyBlock[j] ^ 0x36
      invariant forall j :: 0 <= j < k ==> o[j] == keyBlock[j] ^ 0x5C
    {
      i[k] := keyBlock[k] ^ 0x36;
      o[k] := keyBlock[k] ^ 0x5C;
    }
    ipad, opad := i[..], o[..];
  }

  // Every split of a message into update calls gives the hash of the whole message.
  method HashChunks(chunks: seq<seq<Octet>>, len: nat) returns (digest: seq<Octet>)
    ensures digest == Truncate(Hash(Concat(chunks)), len)
  {
    hide Hash, Sha256.Valid;
    var h := new Sha256();
    assert chunks[..|chunks|] == chunks;
    for i := 0 to |chunks|
      invariant h.Valid() && h.message == Concat(chunks[..i])
      invariant fresh(h) && fresh(h.state) && fresh(h.buffer)
    {
      assert chunks[..i + 1][..i] == chunks[..i];
      h.Update(chunks[i]);
    }
    digest := h.Finalize(len);
  }

  // The two implementations agree with RFC 2104 and with each other, for every
  // key length, every split of the text and every output length.
  method BothHmacs(key: seq<Octet>, chunks: seq<seq<Octet>>, len: nat)
    returns (single: seq<Octet>, paired: seq<Octet>)
    ensures single == paired == Truncate(Rfc2104(key, Concat(chunks)), len)
  {
    single := SingleHmac(key, chunks, len);
    paired := PairedHmac(key, chunks, len);
  }

  method SingleHmac(key: seq<Octet>, chunks: seq<seq<Octet>>, len: nat) returns (digest: seq<Octet>)
    ensures digest == Truncate(Rfc2104(key, Concat(chunks)), len)
  {
    hide Hash, KeyBlock, XorPad, Sha256.Keyed;
    var h := new Sha256();
    h.ResetHmac(key);
    for i := 0 to |chunks|
      invariant h.Keyed(key, Concat(chunks[..i]))
      invariant fresh(h) && fresh(h.state) && fresh(h.buffer) && fresh(h.opad)
    {
      assert chunks[..i + 1][..i] == chunks[..i];
      h.UpdateHmac(chunks[i], key, Concat(chunks[..i]));
    }
    assert chunks[..|chunks|] == chunks;
    digest := h.FinalizeHmac(len, key, Concat(chunks));
  }

  method PairedHmac(key: seq<Octet>, chunks: seq<seq<Octet>>, len: nat) returns (digest: seq<Octet>)
    ensures digest == Truncate(Rfc2104(key, Concat(chunks)), len)
  {
    hide Hash, KeyBlock, XorPad, Hmac.Keyed;
    var scratch := new Sha256();
    var h := new Hmac(scratch);
    h.Reset(key);
    for i := 0 to |chunks|
      invariant h.Keyed(key, Concat(chunks[..i]))
      invariant fresh(h.inner) && fresh(h.inner.state) && fresh(h.inner.buffer)
    {
      assert chunks[..i + 1][..i] == chunks[..i];
      h.Update(chunks[i], key, Concat(chunks[..i]));
    }
    assert chunks[..|chunks|] == chunks;
    digest := h.Finalize(len, key, Concat(chunks));
  }
}
