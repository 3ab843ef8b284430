/** Octets, and how numbers and bit strings are laid out in them: most significant part first. */
module Octets {
  import opened Prefixes

  type Octet = x: int | 0 <= x < 256

  function Enc16(x: int): (b: seq<Octet>)
    requires 0 <= x < 0x1_0000
    ensures |b| == 2
  {
    [x / 0x100, x % 0x100]
  }

  function Dec16(b: seq<Octet>): (x: int)
    requires |b| == 2
    ensures 0 <= x < 0x1_0000
  {
    var hi: int := b[0];
    hi * 0x100 + b[1]
  }

  /** The number a string of octets stands for in network byte order. */
  function Number(b: seq<Octet>): nat {
    if b == [] then 0 else 256 * Number(b[..|b| - 1]) + b[|b| - 1]
  }

  lemma NumberOfTwo(b: seq<Octet>)
    requires |b| == 2
    ensures Number(b) == 256 * (b[0] as int) + b[1] == Dec16(b)
  {
    assert b[..1] == [b[0]] && b[..1][..0] == [];
    assert Number(b[..1]) == b[0];
  }

  lemma NumberOfFour(b: seq<Octet>)
    requires |b| == 4
    ensures Number(b) == 0x1_0000 * Dec16(b[..2]) + Dec16(b[2..])
  {
    assert b[..3][..2] == b[..2] && b[2..] == [b[2], b[3]];
    NumberOfTwo(b[..2]);
  }

  /** The octets of a 16-bit number are its digits to the base 256, and the number is read off them. */
  lemma Word16Value(x: int)
    requires 0 <= x < 0x1_0000
    ensures Number(Enc16(x)) == x == Dec16(Enc16(x))
  {
    NumberOfTwo(Enc16(x));
  }

  // ---------- bits ----------

  /** The number n bits stand for. */
  function Binary(b: Bits): (v: nat)
    ensures v < Power(|b|)
  {
    if b == [] then 0 else 2 * Binary(b[..|b| - 1]) + if b[|b| - 1] then 1 else 0
  }

  function Power(n: nat): (p: nat)
    ensures p > 0
  {
    if n == 0 then 1 else 2 * Power(n - 1)
  }

  /** The n low bits of a number, high bit first, as prefix_bit numbers them. */
  function BitsFrom(v: nat, n: nat): (b: Bits)
    ensures |b| == n
  {
    if n == 0 then [] else BitsFrom(v / 2, n - 1) + [v % 2 == 1]
  }

  lemma {:induction false} BitsOfBinary(b: Bits)
    ensures BitsFrom(Binary(b), |b|) == b
  {
    if b != [] {
      BitsOfBinary(b[..|b| - 1]);
    }
  }

  lemma {:induction false} BinaryOfBits(v: nat, n: nat)
    requires v < Power(n)
    ensures Binary(BitsFrom(v, n)) == v
  {
    if n > 0 {
      BinaryOfBits(v / 2, n - 1);
      assert BitsFrom(v, n)[..n - 1] == BitsFrom(v / 2, n - 1);
    }
  }

  function ShiftRight(v: nat, k: nat): nat {
    if k == 0 then v else ShiftRight(v / 2, k - 1)
  }

  /** Bit k from the left, by shifting and masking. */
  lemma {:induction false} BitPlace(v: nat, n: nat, k: nat)
    requires k < n
    ensures BitsFrom(v, n)[k] <==> ShiftRight(v, n - 1 - k) % 2 == 1
  {
    if k < n - 1 {
      BitPlace(v / 2, n - 1, k);
    }
  }

  function OctetOf(b: Bits): Octet
    requires |b| == 8
  {
    assert Power(8) == 256;
    Binary(b)
  }

  function Weight(bit: bool, w: nat): nat {
    if bit then w else 0
  }

  lemma BinarySnoc(b: Bits, n: nat)
    requires n < |b|
    ensures Binary(b[..n + 1]) == 2 * Binary(b[..n]) + Weight(b[n], 1)
  {
    assert b[..n + 1][..n] == b[..n];
  }

  lemma FourBits(b: Bits, n: nat)
    requires n + 4 <= |b|
    ensures Binary(b[..n + 4]) ==
      16 * Binary(b[..n]) + Weight(b[n], 8) + Weight(b[n + 1], 4) + Weight(b[n + 2], 2) + Weight(b[n + 3], 1)
  {
    BinarySnoc(b, n);
    BinarySnoc(b, n + 1);
    BinarySnoc(b, n + 2);
    BinarySnoc(b, n + 3);
  }

  /** An octet is the sum of the weights of its bits. */
  lemma OctetByBits(b: Bits)
    requires |b| == 8
    ensures OctetOf(b) == 16 * (Weight(b[0], 8) + Weight(b[1], 4) + Weight(b[2], 2) + Weight(b[3], 1))
                        + (Weight(b[4], 8) + Weight(b[5], 4) + Weight(b[6], 2) + Weight(b[7], 1))
  {
    FourBits(b, 0);
    FourBits(b, 4);
    assert b[..0] == [] && b[..8] == b && Binary([]) == 0;
  }
}
