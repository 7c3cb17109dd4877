/** Octets as bounded integers, and the arithmetic the wire formats apply to them. */
module Bytes {

  type byte = n: int | 0 <= n < 256

  /** Big-endian 16-bit value of two octets. */
  function U16(hi: byte, lo: byte): (n: nat)
    ensures n < 0x1_0000
  {
    256 * hi + lo
  }

  /** Bitwise exclusive or of the `k` low bits. */
  function XorBits(a: nat, b: nat, k: nat): (r: nat)
    ensures r < Pow2(k)
  {
    if k == 0 then 0 else 2 * XorBits(a / 2, b / 2, k - 1) + (a % 2 + b % 2) % 2
  }

  function Pow2(k: nat): (p: nat)
    ensures p > 0
  {
    if k == 0 then 1 else 2 * Pow2(k - 1)
  }

  function Xor(a: byte, b: byte): byte {
    assert Pow2(8) == 256;
    XorBits(a, b, 8)
  }

  lemma {:induction false} XorBitsCommutes(a: nat, b: nat, k: nat)
    ensures XorBits(a, b, k) == XorBits(b, a, k)
  {
    if k > 0 {
      XorBitsCommutes(a / 2, b / 2, k - 1);
    }
  }

  lemma {:induction false} XorZero(b: nat, k: nat)
    requires b < Pow2(k)
    ensures XorBits(0, b, k) == b
  {
    if k > 0 {
      XorZero(b / 2, k - 1);
    }
  }

  lemma ParityCancels(p: nat, q: nat, r: nat, x: nat, y: nat)
    requires p < 2 && q < 2 && r < 2
    requires 2 * x + (p + q) % 2 == 2 * y + (p + r) % 2
    ensures q == r && x == y
  {
  }

  lemma {:induction false} XorBitsCancels(a: nat, b: nat, c: nat, k: nat)
    requires b < Pow2(k) && c < Pow2(k)
    requires XorBits(a, b, k) == XorBits(a, c, k)
    ensures b == c
  {
    if k > 0 {
      var x, y := XorBits(a / 2, b / 2, k - 1), XorBits(a / 2, c / 2, k - 1);
      ParityCancels(a % 2, b % 2, c % 2, x, y);
      XorBitsCancels(a / 2, b / 2, c / 2, k - 1);
    }
  }

  /** Exclusive or with a fixed octet is injective, from either side. */
  lemma XorCancels(a: byte, b: byte, c: byte)
    ensures Xor(a, b) == Xor(a, c) ==> b == c
    ensures Xor(b, a) == Xor(c, a) ==> b == c
  {
    assert Pow2(8) == 256;
    XorBitsCommutes(a, b, 8);
    XorBitsCommutes(a, c, 8);
    if Xor(a, b) == Xor(a, c) {
      XorBitsCancels(a, b, c, 8);
    }
  }

  /** Bit `k`, counted from the lowest. */
  function Bit(x: nat, k: nat): (b: nat)
    ensures b < 2
  {
    if k == 0 then x % 2 else Bit(x / 2, k - 1)
  }

  /** The bits of a number, by their place values. */
  lemma BitValues(x: nat)
    ensures Bit(x, 0) == x % 2 && Bit(x, 1) == x / 2 % 2 && Bit(x, 2) == x / 4 % 2 && Bit(x, 3) == x / 8 % 2
    ensures Bit(x, 4) == x / 16 % 2 && Bit(x, 5) == x / 32 % 2 && Bit(x, 6) == x / 64 % 2 && Bit(x, 7) == x / 128 % 2
  {
    var y := x / 16;
    assert x / 2 / 2 == x / 4 && x / 4 / 2 == x / 8 && x / 8 / 2 == y;
    assert y / 2 == x / 32 && y / 2 / 2 == x / 64 && y / 2 / 2 / 2 == x / 128;
    assert Bit(x, 4) == Bit(x / 2, 3) == Bit(x / 4, 2) == Bit(x / 8, 1) == Bit(y, 0);
    assert Bit(x, 5) == Bit(x / 2, 4) == Bit(x / 4, 3) == Bit(x / 8, 2) == Bit(y, 1);
    assert Bit(x, 6) == Bit(x / 2, 5) == Bit(x / 4, 4) == Bit(x / 8, 3) == Bit(y, 2);
    assert Bit(x, 7) == Bit(x / 2, 6) == Bit(x / 4, 5) == Bit(x / 8, 4) == Bit(y, 3);
  }

  lemma {:induction false} XorBitsBitwise(a: nat, b: nat, n: nat, k: nat)
    requires k < n
    ensures Bit(XorBits(a, b, n), k) == (Bit(a, k) + Bit(b, k)) % 2
  {
    if k > 0 {
      XorBitsBitwise(a / 2, b / 2, n - 1, k - 1);
    }
  }

  /** Exclusive or: each bit of the result says whether exactly one of the operands has it set. */
  lemma XorIsBitwise(a: byte, b: byte, k: nat)
    requires k < 8
    ensures Bit(Xor(a, b), k) == (Bit(a, k) + Bit(b, k)) % 2
  {
    XorBitsBitwise(a, b, 8, k);
  }

  /** The bytes of a list of chunks, in order. */
  function Concat(chunks: seq<seq<byte>>): seq<byte> {
    if chunks == [] then [] else chunks[0] + Concat(chunks[1..])
  }

  lemma ConcatFirst(b: seq<byte>, chunks: seq<seq<byte>>)
    requires chunks != []
    ensures b + Concat(chunks) == b + chunks[0] + Concat(chunks[1..])
  {
  }
}
