// Fixed-width big-endian numbers: the digits of a natural number in base 256,
// most significant first, and the number a digit string denotes.
module BigEndian {

  type Byte = x: int | 0 <= x < 256

  function Pow256(k: nat): (p: nat)
    ensures p > 0
  {
    if k == 0 then 1 else 256 * Pow256(k - 1)
  }

  // The low k base-256 digits of n.
  function Digits(n: nat, k: nat): (d: seq<Byte>)
    ensures |d| == k
  {
    if k == 0 then [] else Digits(n / 256, k - 1) + [n % 256]
  }

  function Value(d: seq<Byte>): nat
  {
    if d == [] then 0 else 256 * Value(d[..|d| - 1]) + d[|d| - 1]
  }

  // Writing k digits and reading them back keeps n modulo 256^k.
  lemma {:induction false} ValueOfDigits(n: nat, k: nat)
    ensures n < Pow256(k) ==> Value(Digits(n, k)) == n
  {
    if k > 0 {
      var d := Digits(n, k);
      assert d[..|d| - 1] == Digits(n / 256, k - 1);
      ValueOfDigits(n / 256, k - 1);
    }
  }

  // Reading k digits and writing them back restores the digits.
  lemma {:induction false} DigitsOfValue(d: seq<Byte>)
    ensures Value(d) < Pow256(|d|)
    ensures Digits(Value(d), |d|) == d
  {
    if d != [] {
      var front := d[..|d| - 1];
      DigitsOfValue(front);
      assert Value(d) / 256 == Value(front) && Value(d) % 256 == d[|d| - 1];
      assert d == front + [d[|d| - 1]];
    }
  }

  // Digit i, counted from the most significant end, as a shift and a mask give it.
  lemma {:induction false} DigitAt(n: nat, k: nat, i: nat)
    requires i < k
    ensures Digits(n, k)[k - 1 - i] == n / Pow256(i) % 256
  {
    if i > 0 {
      DigitAt(n / 256, k - 1, i - 1);
      DivDiv(n, Pow256(i - 1));
    }
  }

  lemma DivDiv(n: nat, p: nat)
    requires p > 0
    ensures n / (256 * p) == n / 256 / p
  {
    var q, r := n / 256 / p, n / 256 % p;
    assert n / 256 == q * p + r;
    var s := 256 * r + n % 256;
    assert n == q * (256 * p) + s by {
      assert n == 256 * (q * p + r) + n % 256;
    }
    assert s < 256 * p;
    DivUnique(n, 256 * p, q, s);
  }

  lemma DivUnique(n: nat, d: nat, q: nat, r: nat)
    requires r < d && n == q * d + r
    ensures n / d == q
  {
    MulStep(q, n / d, d);
    MulStep(n / d, q, d);
  }

  lemma MulStep(a: nat, b: nat, d: nat)
    ensures a < b ==> a * d + d <= b * d
  {
    if a < b {
      var k := b - a - 1;
      assert (a + (1 + k)) * d == a * d + (1 + k) * d;
      assert (1 + k) * d == d + k * d;
    }
  }
}
