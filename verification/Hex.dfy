/** Hexadecimal text of octets: lower case as the encoder prints it, and upper-cased as readings carry it. */
module Hex {
  import opened Bytes

  function Digit(n: nat): char
    requires n < 16
  {
    "0123456789abcdef"[n]
  }

  function LowerHex(b: seq<byte>): (s: string)
    ensures |s| == 2 * |b|
  {
    if b == [] then "" else [Digit(b[0] / 16), Digit(b[0] % 16)] + LowerHex(b[1..])
  }

  function UpperChar(c: char): char {
    if 'a' <= c <= 'z' then 'A' + (c - 'a') else c
  }

  function ToUpper(s: string): (r: string)
    ensures |r| == |s|
  {
    seq(|s|, i requires 0 <= i < |s| => UpperChar(s[i]))
  }

  function UpperHex(b: seq<byte>): (s: string)
    ensures |s| == 2 * |b|
  {
    ToUpper(LowerHex(b))
  }

  lemma DigitInjective(m: nat, n: nat)
    requires m < 16 && n < 16 && UpperChar(Digit(m)) == UpperChar(Digit(n))
    ensures m == n
  {
  }

  lemma {:induction false} LowerHexAt(b: seq<byte>, i: nat)
    requires i < |b|
    ensures LowerHex(b)[2 * i] == Digit(b[i] / 16) && LowerHex(b)[2 * i + 1] == Digit(b[i] % 16)
  {
    if i > 0 {
      LowerHexAt(b[1..], i - 1);
    }
  }

  /** Upper-case hex loses nothing: the text determines the octets. */
  lemma UpperHexInjective(a: seq<byte>, b: seq<byte>)
    requires UpperHex(a) == UpperHex(b)
    ensures a == b
  {
    forall i | 0 <= i < |a|
      ensures a[i] == b[i]
    {
      LowerHexAt(a, i);
      LowerHexAt(b, i);
      assert UpperHex(a)[2 * i] == UpperHex(b)[2 * i] && UpperHex(a)[2 * i + 1] == UpperHex(b)[2 * i + 1];
      DigitInjective(a[i] / 16, b[i] / 16);
      DigitInjective(a[i] % 16, b[i] % 16);
    }
  }

  lemma {:induction false} LowerHexSplit(a: seq<byte>, b: seq<byte>)
    ensures LowerHex(a + b) == LowerHex(a) + LowerHex(b)
  {
    if a == [] {
      assert a + b == b;
    } else {
      assert (a + b)[1..] == a[1..] + b;
      LowerHexSplit(a[1..], b);
    }
  }

  /** Every digit, and the order of the two digits of an octet. */
  lemma KnownHex()
    ensures LowerHex([0x01, 0x23]) == "0123" == UpperHex([0x01, 0x23])
    ensures LowerHex([0x45, 0x67]) == "4567" == UpperHex([0x45, 0x67])
    ensures LowerHex([0x89, 0xAB]) == "89ab" && UpperHex([0x89, 0xAB]) == "89AB"
    ensures LowerHex([0xCD, 0xEF]) == "cdef" && UpperHex([0xCD, 0xEF]) == "CDEF"
  {
    hide LowerHex;
    TwoOctets(0x01, 0x23);
    TwoOctets(0x45, 0x67);
    TwoOctets(0x89, 0xAB);
    TwoOctets(0xCD, 0xEF);
  }

  lemma TwoOctets(a: byte, b: byte)
    ensures LowerHex([a, b]) == [Digit(a / 16), Digit(a % 16), Digit(b / 16), Digit(b % 16)]
  {
    LowerHexAt([a, b], 0);
    LowerHexAt([a, b], 1);
  }
}
