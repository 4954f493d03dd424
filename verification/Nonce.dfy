// The 12-byte AEAD nonce: four lead bytes and a 64-bit big-endian counter.
module Nonce {
  import opened BigEndian
  import opened Protocol
  import opened Wrappers

  // generate_nonce_with_counter: None is the overflow error.
  function Generate(counter: int, random: Bytes): Option<(Bytes, nat)>
    requires |random| == 4
  {
    if counter >= U64 - 1 || counter < 0 then None
    else Some((random + Digits(counter + 1, 8), counter + 1))
  }

  // extract_nonce_counter: None is the length error.
  function Extract(nonce: Bytes): Option<nat>
  {
    if |nonce| != NONCE_SIZE then None else Some(Value(nonce[4..]))
  }

  // validate_nonce_counter: the verdict and the counter to remember.
  function Validate(nonce: Bytes, last: nat): (bool, nat)
  {
    match Extract(nonce)
    case None => (false, last)
    case Some(current) => if current <= last || current > U64 - 1 then (false, last) else (true, current)
  }

  // The firmware's nonce: "MCU", a zero byte, the counter.
  function Firmware(counter: nat): (n: Bytes)
    ensures |n| == NONCE_SIZE
  {
    [77, 67, 85, 0] + Digits(counter, 8)
  }

  // validate_frame_nonce
  function ValidateFrame(nonce: Bytes, last: nat): (bool, nat)
  {
    if |nonce| < NONCE_SIZE then (false, last)
    else
      var counter := Value(nonce[4..12]);
      if counter <= last then (false, last) else (true, counter)
  }

  lemma PowEight()
    ensures Pow256(8) == U64
  {
    assert Pow256(2) == 65536;
    assert Pow256(4) == 256 * (256 * Pow256(2));
    assert Pow256(6) == 256 * (256 * Pow256(4));
    assert Pow256(8) == 256 * (256 * Pow256(6));
  }

  // What the daemon packs, either end extracts: the counter after the one passed in.
  lemma GenerateExtract(counter: int, random: Bytes)
    requires |random| == 4
    ensures Generate(counter, random).Some? <==> 0 <= counter < U64 - 1
    ensures Generate(counter, random).Some? ==>
              var (nonce, next) := Generate(counter, random).value;
              && next == counter + 1 && Extract(nonce) == Some(next)
              && forall last: nat :: ValidateFrame(nonce, last) == Validate(nonce, last) == (next > last, if next > last then next else last)
  {
    if 0 <= counter < U64 - 1 {
      PowEight();
      ValueOfDigits(counter + 1, 8);
      var nonce := random + Digits(counter + 1, 8);
      assert nonce[4..] == nonce[4..12] == Digits(counter + 1, 8);
    }
  }

  // What the firmware packs, the daemon extracts.
  lemma FirmwareExtract(counter: nat)
    requires counter < U64
    ensures Extract(Firmware(counter)) == Some(counter)
  {
    PowEight();
    ValueOfDigits(counter, 8);
    assert Firmware(counter)[4..] == Digits(counter, 8);
  }

  // The two validators are the same predicate on well-formed nonces.
  lemma ValidatorsAgree(nonce: Bytes, last: nat)
    requires |nonce| == NONCE_SIZE
    ensures Validate(nonce, last) == ValidateFrame(nonce, last)
  {
    PowEight();
    DigitsOfValue(nonce[4..]);
    assert nonce[4..] == nonce[4..12];
  }

  // A nonce of zero bytes, as unencrypted frames carry, passes neither validator.
  lemma ZeroNonceRefused(nonce: Bytes, last: nat)
    requires |nonce| == NONCE_SIZE && forall i :: 0 <= i < |nonce| ==> nonce[i] == 0
    ensures ValidateFrame(nonce, last) == (false, last)
  {
    ValueOfZeros(nonce[4..12]);
  }

  lemma {:induction false} ValueOfZeros(d: Bytes)
    requires forall i :: 0 <= i < |d| ==> d[i] == 0
    ensures Value(d) == 0
  {
    if d != [] {
      ValueOfZeros(d[..|d| - 1]);
    }
  }
}
