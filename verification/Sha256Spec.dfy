// SHA-256 as FIPS 180-4 defines it, and HMAC as RFC 2104 defines it,
// on byte strings. It is independent of the streaming implementation, except that the
// four words summed in the message schedule stand in that implementation's order.
module Sha256Spec {
  import BigEndian

  type Octet = bv8
  type Word = bv32

  // Section 4.1.2 of FIPS 180-4.
  function Rotr(x: Word, n: bv6): Word
    requires 0 < n < 32
  {
    (x >> n) | (x << (32 - n))
  }

  function Ch(x: Word, y: Word, z: Word): Word { (x & y) ^ (!x & z) }
  function Maj(x: Word, y: Word, z: Word): Word { (x & y) ^ (x & z) ^ (y & z) }
  function BigSigma0(x: Word): Word { Rotr(x, 2) ^ Rotr(x, 13) ^ Rotr(x, 22) }
  function BigSigma1(x: Word): Word { Rotr(x, 6) ^ Rotr(x, 11) ^ Rotr(x, 25) }
  function SmallSigma0(x: Word): Word { Rotr(x, 7) ^ Rotr(x, 18) ^ (x >> 3) }
  function SmallSigma1(x: Word): Word { Rotr(x, 17) ^ Rotr(x, 19) ^ (x >> 10) }

  // Addition modulo 2^32.
  function Plus(x: Word, y: Word): Word { x + y }

  // Section 4.2.2.
  const K: seq<seq<Word>> := [
    [0x428A2F98, 0x71374491, 0xB5C0FBCF, 0xE9B5DBA5, 0x3956C25B, 0x59F111F1, 0x923F82A4, 0xAB1C5ED5],
    [0xD807AA98, 0x12835B01, 0x243185BE, 0x550C7DC3, 0x72BE5D74, 0x80DEB1FE, 0x9BDC06A7, 0xC19BF174],
    [0xE49B69C1, 0xEFBE4786, 0x0FC19DC6, 0x240CA1CC, 0x2DE92C6F, 0x4A7484AA, 0x5CB0A9DC, 0x76F988DA],
    [0x983E5152, 0xA831C66D, 0xB00327C8, 0xBF597FC7, 0xC6E00BF3, 0xD5A79147, 0x06CA6351, 0x14292967],
    [0x27B70A85, 0x2E1B2138, 0x4D2C6DFC, 0x53380D13, 0x650A7354, 0x766A0ABB, 0x81C2C92E, 0x92722C85],
    [0xA2BFE8A1, 0xA81A664B, 0xC24B8B70, 0xC76C51A3, 0xD192E819, 0xD6990624, 0xF40E3585, 0x106AA070],
    [0x19A4C116, 0x1E376C08, 0x2748774C, 0x34B0BCB5, 0x391C0CB3, 0x4ED8AA4A, 0x5B9CCA4F, 0x682E6FF3],
    [0x748F82EE, 0x78A5636F, 0x84C87814, 0x8CC70208, 0x90BEFFFA, 0xA4506CEB, 0xBEF9A3F7, 0xC67178F2]]

  function RoundConstant(t: nat): Word
    requires t < 64
  {
    K[t / 8][t % 8]
  }

  // The hash value, and also the eight working variables.
  datatype Vars = Vars(a: Word, b: Word, c: Word, d: Word, e: Word, f: Word, g: Word, h: Word) {
    function Words(): seq<Word> { [a, b, c, d, e, f, g, h] }
  }

  // Section 5.3.3.
  const H0 := Vars(0x6A09E667, 0xBB67AE85, 0x3C6EF372, 0xA54FF53A,
                   0x510E527F, 0x9B05688C, 0x1F83D9AB, 0x5BE0CD19)

  function WordAt(block: seq<Octet>, t: nat): Word
    requires |block| == 64 && t < 16
  {
    ((block[4 * t] as Word) << 24) | ((block[4 * t + 1] as Word) << 16)
    | ((block[4 * t + 2] as Word) << 8) | (block[4 * t + 3] as Word)
  }

  // Step 1 of section 6.2.2: the first t words of the message schedule. (The
  // standard lists the four addends of NextWord in the opposite order.)
  function Schedule(block: seq<Octet>, t: nat): (w: seq<Word>)
    requires |block| == 64 && t <= 64
    ensures |w| == t
  {
    if t == 0 then []
    else
      var w := Schedule(block, t - 1);
      w + [if t <= 16 then WordAt(block, t - 1) else NextWord(w)]
  }

  function NextWord(w: seq<Word>): Word
    requires |w| >= 16
  {
    var t := |w|;
    Plus(Plus(Plus(w[t - 16], SmallSigma0(w[t - 15])), w[t - 7]), SmallSigma1(w[t - 2]))
  }

  // Step 3: one round.
  function Round(v: Vars, k: Word, w: Word): Vars
  {
    var t1 := Plus(Plus(Plus(Plus(v.h, BigSigma1(v.e)), Ch(v.e, v.f, v.g)), k), w);
    var t2 := Plus(BigSigma0(v.a), Maj(v.a, v.b, v.c));
    Vars(Plus(t1, t2), v.a, v.b, v.c, Plus(v.d, t1), v.e, v.f, v.g)
  }

  function Rounds(v: Vars, w: seq<Word>, t: nat): Vars
    requires |w| == 64 && t <= 64
  {
    if t == 0 then v else Round(Rounds(v, w, t - 1), RoundConstant(t - 1), w[t - 1])
  }

  // Step 4: the intermediate hash value after one block.
  function AddVars(v: Vars, r: Vars): Vars
  {
    Vars(Plus(v.a, r.a), Plus(v.b, r.b), Plus(v.c, r.c), Plus(v.d, r.d),
         Plus(v.e, r.e), Plus(v.f, r.f), Plus(v.g, r.g), Plus(v.h, r.h))
  }

  function Compress(v: Vars, block: seq<Octet>): Vars
    requires |block| == 64
  {
    AddVars(v, Rounds(v, Schedule(block, 64), 64))
  }

  function CompressAll(v: Vars, m: seq<Octet>): Vars
    requires |m| % 64 == 0
    decreases |m|
  {
    if m == [] then v else Compress(CompressAll(v, m[..|m| - 64]), m[|m| - 64..])
  }

  function Zeros(n: nat): (z: seq<Octet>)
    ensures |z| == n
  {
    seq(n, _ => 0)
  }

  // Section 5.1.1, in octets: the least number of zero octets that, after the
  // octet 0x80, leaves room for exactly eight more in the last block.
  predicate LeavesRoom(n: nat, z: nat) { (n + z) % 64 == 55 }

  function ZeroCount(n: nat): (z: nat)
    ensures LeavesRoom(n, z)
    ensures forall y: nat :: y < z ==> !LeavesRoom(n, y)
  {
    (119 - n % 64) % 64
  }

  const TWO64: nat := 0x1_0000_0000_0000_0000

  function Octets(d: seq<BigEndian.Byte>): (o: seq<Octet>)
    ensures |o| == |d|
  {
    seq(|d|, i requires 0 <= i < |d| => d[i] as Octet)
  }

  // The 64-bit length field. FIPS 180-4 defines the hash for messages of fewer
  // than 2^64 bits, where the reduction does nothing.
  function LengthField(octets: nat): (f: seq<Octet>)
    ensures |f| == 8
  {
    Octets(BigEndian.Digits(8 * octets % TWO64, 8))
  }

  function Padding(n: nat): (p: seq<Octet>)
    ensures |p| == 9 + ZeroCount(n)
    ensures (n + |p|) % 64 == 0
  {
    RoomForLength(n, ZeroCount(n));
    [0x80] + Zeros(ZeroCount(n)) + LengthField(n)
  }

  lemma RoomForLength(n: nat, z: nat)
    requires LeavesRoom(n, z)
    ensures (n + (9 + z)) % 64 == 0
  {
  }

  function Pad(m: seq<Octet>): (p: seq<Octet>)
    ensures |p| % 64 == 0
  {
    m + Padding(|m|)
  }

  function WordOctets(w: Word): (o: seq<Octet>)
    ensures |o| == 4
  {
    [((w >> 24) & 0xFF) as Octet, ((w >> 16) & 0xFF) as Octet, ((w >> 8) & 0xFF) as Octet, (w & 0xFF) as Octet]
  }

  function Digest(words: seq<Word>): (d: seq<Octet>)
    ensures |d| == 4 * |words|
  {
    if words == [] then [] else Digest(words[..|words| - 1]) + WordOctets(words[|words| - 1])
  }

  function Hash(m: seq<Octet>): (d: seq<Octet>)
    ensures |d| == 32
  {
    Digest(CompressAll(H0, Pad(m)).Words())
  }

  // Section 2 of RFC 2104.
  function KeyBlock(key: seq<Octet>): (k: seq<Octet>)
    ensures |k| == 64
  {
    if |key| > 64 then Hash(key) + Zeros(32) else key + Zeros(64 - |key|)
  }

  function XorPad(k: seq<Octet>, x: Octet): (p: seq<Octet>)
    ensures |p| == |k|
  {
    seq(|k|, i requires 0 <= i < |k| => k[i] ^ x)
  }

  function Rfc2104(key: seq<Octet>, text: seq<Octet>): (d: seq<Octet>)
    ensures |d| == 32
  {
    Hash(XorPad(KeyBlock(key), 0x5C) + Hash(XorPad(KeyBlock(key), 0x36) + text))
  }

  // Leftmost octets of a digest, as truncated output is defined.
  function Truncate(d: seq<Octet>, len: nat): seq<Octet>
  {
    if len < |d| then d[..len] else d
  }

  function Concat(chunks: seq<seq<Octet>>): seq<Octet>
  {
    if chunks == [] then [] else Concat(chunks[..|chunks| - 1]) + chunks[|chunks| - 1]
  }
}
