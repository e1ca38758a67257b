/** UTF-8 encoding of text, as Python's `str.encode()` and text-mode file writes produce it.
    The synthesis service hashes the encoded payload and stores it in the audit file. */
module Encoding {

  newtype byte = x: int | 0 <= x < 0x100

  /** A continuation byte has the bit pattern 10xxxxxx. */
  predicate IsContinuation(b: byte) {
    0x80 <= b < 0xC0
  }

  /** The continuation byte carrying the low six bits of `n`. */
  function Continuation(n: nat): (b: byte)
    ensures IsContinuation(b)
  {
    (0x80 + n % 0x40) as byte
  }

  /** The number of bytes a UTF-8 sequence has, read off its lead byte. */
  function LeadLength(lead: byte): nat {
    if lead < 0x80 then 1 else if lead < 0xE0 then 2 else if lead < 0xF0 then 3 else 4
  }

  /** The code point a UTF-8 sequence of one to four bytes stands for. */
  function DecodeChar(r: seq<byte>): int
    requires 1 <= |r| <= 4
  {
    if |r| == 1 then r[0] as int
    else if |r| == 2 then (r[0] as int - 0xC0) * 0x40 + (r[1] as int - 0x80)
    else if |r| == 3 then (r[0] as int - 0xE0) * 0x1000 + (r[1] as int - 0x80) * 0x40 + (r[2] as int - 0x80)
    else (r[0] as int - 0xF0) * 0x4_0000 + (r[1] as int - 0x80) * 0x1000 + (r[2] as int - 0x80) * 0x40 + (r[3] as int - 0x80)
  }

  /** Two bytes carry eleven bits: five in the lead byte, six in the continuation byte. */
  lemma TwoBytes(n: nat)
    requires 0x80 <= n < 0x800
    ensures var r := [(0xC0 + n / 0x40) as byte, Continuation(n)];
      LeadLength(r[0]) == 2 && DecodeChar(r) == n
  {
  }

  /** Three bytes carry sixteen bits: four in the lead byte, six in each continuation byte. */
  lemma ThreeBytes(n: nat)
    requires 0x800 <= n < 0x1_0000
    ensures var r := [(0xE0 + n / 0x1000) as byte, Continuation(n / 0x40), Continuation(n)];
      LeadLength(r[0]) == 3 && DecodeChar(r) == n
  {
    assert n / 0x1000 * 0x40 + n / 0x40 % 0x40 == n / 0x40;
  }

  /** Four bytes carry twenty-one bits: three in the lead byte, six in each continuation byte. */
  lemma FourBytes(n: nat)
    requires 0x1_0000 <= n < 0x11_0000
    ensures var r := [(0xF0 + n / 0x4_0000) as byte, Continuation(n / 0x1000), Continuation(n / 0x40), Continuation(n)];
      LeadLength(r[0]) == 4 && DecodeChar(r) == n
  {
    assert n / 0x4_0000 * 0x40 + n / 0x1000 % 0x40 == n / 0x1000;
    assert n / 0x1000 * 0x40 + n / 0x40 % 0x40 == n / 0x40;
  }

  /** The UTF-8 bytes of one Unicode scalar value: a lead byte followed by
      zero to three continuation bytes. The lead byte says how many bytes
      there are, and decoding the bytes gives the character back. */
  function EncodeChar(c: char): (r: seq<byte>)
    ensures 1 <= |r| <= 4
    ensures !IsContinuation(r[0])
    ensures forall k | 1 <= k < |r| :: IsContinuation(r[k])
    ensures |r| == 1 <==> c as int < 0x80
    ensures LeadLength(r[0]) == |r|
    ensures DecodeChar(r) == c as int
  {
    var n := c as int;
    if n < 0x80 then [n as byte]
    else if n < 0x800 then
      TwoBytes(n);
      [(0xC0 + n / 0x40) as byte, Continuation(n)]
    else if n < 0x1_0000 then
      ThreeBytes(n);
      [(0xE0 + n / 0x1000) as byte, Continuation(n / 0x40), Continuation(n)]
    else
      FourBytes(n);
      [(0xF0 + n / 0x4_0000) as byte, Continuation(n / 0x1000), Continuation(n / 0x40), Continuation(n)]
  }

  /** The UTF-8 encoding of a string: at least one and at most four bytes per character. */
  function Encode(s: string): (r: seq<byte>)
    ensures |s| <= |r| <= 4 * |s|
  {
    if s == [] then [] else EncodeChar(s[0]) + Encode(s[1..])
  }

  /** Encoding is a homomorphism: the encoding of a concatenation is the
      concatenation of the encodings. */
  lemma {:induction false} EncodeAppend(a: string, b: string)
    ensures Encode(a + b) == Encode(a) + Encode(b)
  {
    if a == [] {
      assert a + b == b;
    } else {
      assert (a + b)[0] == a[0];
      assert (a + b)[1..] == a[1..] + b;
      EncodeAppend(a[1..], b);
    }
  }

  /** An ASCII string encodes byte for byte. */
  lemma {:induction false} EncodeAscii(s: string)
    requires forall i | 0 <= i < |s| :: s[i] as int < 0x80
    ensures |Encode(s)| == |s|
    ensures forall i | 0 <= i < |s| :: Encode(s)[i] as int == s[i] as int
  {
    if s != [] {
      EncodeAscii(s[1..]);
    }
  }

  /** Distinct strings have distinct encodings: the lead byte of the first
      character fixes how many bytes it takes, those bytes decode to the
      character, and the rest is the encoding of the rest of the string. */
  lemma {:induction false} EncodeInjective(s1: string, s2: string)
    ensures Encode(s1) == Encode(s2) <==> s1 == s2
  {
    if Encode(s1) == Encode(s2) && s1 != [] && s2 != [] {
      var e := Encode(s1);
      var e1, e2 := EncodeChar(s1[0]), EncodeChar(s2[0]);
      assert e == e1 + Encode(s1[1..]) && e == e2 + Encode(s2[1..]);
      assert e1[0] == e[0] == e2[0];
      assert |e1| == |e2|;
      assert e1 == e[..|e1|] == e2;
      assert s1[0] as int == DecodeChar(e1) == s2[0] as int;
      assert Encode(s1[1..]) == e[|e1|..] == Encode(s2[1..]);
      EncodeInjective(s1[1..], s2[1..]);
      assert s1 == [s1[0]] + s1[1..] && s2 == [s2[0]] + s2[1..];
    }
  }
}
