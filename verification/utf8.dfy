/** The parts of Go's unicode/utf8 that the terminal relies on (RFC 3629 section 4). */
module Utf8 {
  import opened Operations

  const RUNE_ERROR := 0xFFFD

  /** The length a first byte announces; 1 for ASCII and for bytes that start nothing. */
  function SequenceLength(b: Byte): (n: nat)
    ensures 1 <= n <= 4
  {
    if b < 0xC2 then 1 else if b < 0xE0 then 2 else if b < 0xF0 then 3 else if b < 0xF5 then 4 else 1
  }

  /** The second bytes allowed after a first byte. */
  function SecondLow(b: Byte): Byte { if b == 0xE0 then 0xA0 else if b == 0xF0 then 0x90 else 0x80 }

  function SecondHigh(b: Byte): Byte { if b == 0xED then 0x9F else if b == 0xF4 then 0x8F else 0xBF }

  predicate Continuation(b: Byte) { 0x80 <= b <= 0xBF }

  /** The six payload bits of a continuation byte. */
  function Low6(b: Byte): int { b % 64 }

  /** utf8.FullRune: the bytes begin with a complete character or with an error that no more bytes mend. */
  predicate FullRune(p: seq<Byte>) {
    if p == [] then false
    else if |p| >= SequenceLength(p[0]) then true
    else if |p| > 1 && !(SecondLow(p[0]) <= p[1] <= SecondHigh(p[0])) then true
    else |p| > 2 && !Continuation(p[2])
  }

  /** utf8.DecodeRune: the character and the bytes it takes; (RUNE_ERROR, 1) for an error. */
  function DecodeRune(p: seq<Byte>): (r: (int, nat))
    ensures p != [] ==> 1 <= r.1 <= |p|
  {
    if p == [] then (RUNE_ERROR, 0)
    else
      var n := SequenceLength(p[0]);
      var first: int := p[0];
      if n == 1 then (if p[0] < 0x80 then p[0] else RUNE_ERROR, 1)
      else if |p| < n || !(SecondLow(p[0]) <= p[1] <= SecondHigh(p[0])) then (RUNE_ERROR, 1)
      else if n == 2 then (first % 32 * 64 + Low6(p[1]), 2)
      else if !Continuation(p[2]) then (RUNE_ERROR, 1)
      else if n == 3 then (first % 16 * 4096 + Low6(p[1]) * 64 + Low6(p[2]), 3)
      else if !Continuation(p[3]) then (RUNE_ERROR, 1)
      else (first % 8 * 262144 + Low6(p[1]) * 4096 + Low6(p[2]) * 64 + Low6(p[3]), 4)
  }

  /** More bytes change nothing about a full rune. */
  lemma FullRuneStable(p: seq<Byte>, more: seq<Byte>)
    requires FullRune(p)
    ensures FullRune(p + more) && DecodeRune(p + more) == DecodeRune(p)
  {
  }

  /** What is not a full rune is a proper prefix of one: at most three bytes. */
  lemma IncompleteIsShort(p: seq<Byte>)
    requires !FullRune(p)
    ensures |p| <= 3
    ensures p != [] ==> exists more: seq<Byte> :: FullRune(p + more) && DecodeRune(p + more).1 == |p + more| > |p|
  {
    if p != [] {
      var n := SequenceLength(p[0]);
      var more := if |p| == 1 then [SecondLow(p[0]), 0x80, 0x80][..n - 1] else [0x80, 0x80][..n - |p|];
      assert DecodeRune(p + more).1 == |p + more|;
    }
  }

  predicate ScalarValue(r: int) { 0 <= r < 0xD800 || 0xE000 <= r < 0x11_0000 }

  function Encode(r: int): seq<Byte>
    requires ScalarValue(r)
  {
    if r < 0x80 then [r]
    else if r < 0x800 then [0xC0 + r / 64, 0x80 + r % 64]
    else if r < 0x1_0000 then [0xE0 + r / 4096, 0x80 + r / 64 % 64, 0x80 + r % 64]
    else [0xF0 + r / 262144, 0x80 + r / 4096 % 64, 0x80 + r / 64 % 64, 0x80 + r % 64]
  }

  lemma DecodeTwo(r: int, rest: seq<Byte>)
    requires 0x80 <= r < 0x800
    ensures FullRune(Encode(r) + rest) && DecodeRune(Encode(r) + rest) == (r, 2)
  {
  }

  lemma DecodeThree(r: int, rest: seq<Byte>)
    requires 0x800 <= r < 0x1_0000 && ScalarValue(r)
    ensures FullRune(Encode(r) + rest) && DecodeRune(Encode(r) + rest) == (r, 3)
  {
    var q := Encode(r) + rest;
    assert q[0] == 0xE0 + r / 4096 && q[1] == 0x80 + r / 64 % 64 && q[2] == 0x80 + r % 64;
    assert r / 64 == r / 4096 * 64 + r / 64 % 64;
    hide Encode;
    assert SequenceLength(q[0]) == 3;
    assert SecondLow(q[0]) <= q[1] <= SecondHigh(q[0]);
  }

  lemma SixBitDigits(r: nat, a: nat, b: nat, c: nat, d: nat)
    requires a == r / 262144 && b == r / 4096 % 64 && c == r / 64 % 64 && d == r % 64
    ensures r == a * 262144 + b * 4096 + c * 64 + d
  {
    assert r / 4096 == a * 64 + b;
    assert r / 64 == r / 4096 * 64 + c;
  }

  /** Four bytes whose payload digits are a, b, c and d. */
  lemma DecodeDigits(a: nat, b: nat, c: nat, d: nat, rest: seq<Byte>)
    requires a <= 4 && b < 64 && c < 64 && d < 64 && (a == 0 ==> 16 <= b) && (a == 4 ==> b < 16)
    ensures var q := [0xF0 + a, 0x80 + b, 0x80 + c, 0x80 + d] + rest;
      FullRune(q) && DecodeRune(q) == (a * 262144 + b * 4096 + c * 64 + d, 4)
  {
    var q := [0xF0 + a, 0x80 + b, 0x80 + c, 0x80 + d] + rest;
    assert q[0] == 0xF0 + a && q[1] == 0x80 + b && q[2] == 0x80 + c && q[3] == 0x80 + d;
    assert SequenceLength(q[0]) == 4 && q[0] % 8 == a;
    assert Low6(q[1]) == b && Low6(q[2]) == c && Low6(q[3]) == d;
    hide SequenceLength, Low6;
  }

  lemma DecodeFour(r: int, rest: seq<Byte>)
    requires 0x1_0000 <= r < 0x11_0000
    ensures FullRune(Encode(r) + rest) && DecodeRune(Encode(r) + rest) == (r, 4)
  {
    hide FullRune, DecodeRune;
    var a, b, c, d := r / 262144, r / 4096 % 64, r / 64 % 64, r % 64;
    SixBitDigits(r, a, b, c, d);
    assert Encode(r) == [0xF0 + a, 0x80 + b, 0x80 + c, 0x80 + d];
    hide Encode;
    DecodeDigits(a, b, c, d, rest);
  }

  /** Every scalar value is decoded from its encoding, whatever follows. */
  lemma DecodeEncode(r: int, rest: seq<Byte>)
    requires ScalarValue(r)
    ensures FullRune(Encode(r) + rest) && DecodeRune(Encode(r) + rest) == (r, |Encode(r)|)
  {
    if 0x80 <= r < 0x800 {
      DecodeTwo(r, rest);
    } else if 0x800 <= r < 0x1_0000 {
      DecodeThree(r, rest);
    } else if 0x1_0000 <= r {
      DecodeFour(r, rest);
    }
  }

  lemma EncodeTwo(a: nat, b: nat)
    requires 2 <= a < 32 && b < 64
    ensures Encode(a * 64 + b) == [0xC0 + a, 0x80 + b]
  {
  }

  lemma EncodeThree(a: nat, b: nat, c: nat)
    requires a < 16 && b < 64 && c < 64 && (a == 0 ==> b >= 32) && (a == 13 ==> b < 32)
    ensures var r := a * 4096 + b * 64 + c; ScalarValue(r) && Encode(r) == [0xE0 + a, 0x80 + b, 0x80 + c]
  {
    var r := a * 4096 + b * 64 + c;
    assert r / 64 == a * 64 + b && r % 64 == c;
    assert r / 4096 == a && r / 64 % 64 == b;
  }

  lemma EncodeFour(a: nat, b: nat, c: nat, d: nat)
    requires a <= 4 && b < 64 && c < 64 && d < 64 && (a == 0 ==> b >= 16) && (a == 4 ==> b < 16)
    ensures var r := a * 262144 + b * 4096 + c * 64 + d;
      ScalarValue(r) && Encode(r) == [0xF0 + a, 0x80 + b, 0x80 + c, 0x80 + d]
  {
    var r := a * 262144 + b * 4096 + c * 64 + d;
    assert r / 64 == a * 4096 + b * 64 + c && r % 64 == d;
    assert r / 4096 == a * 64 + b && r / 64 % 64 == c;
    assert r / 262144 == a && r / 4096 % 64 == b;
  }

  lemma Payload(b: Byte)
    requires 0x80 <= b <= 0xBF
    ensures b == 0x80 + Low6(b) && Low6(b) < 64
  {
  }

  /** Nothing but the encoding of a scalar value is decoded as one; everything else is one wrong byte. */
  lemma DecodesEncodingsOnly(p: seq<Byte>)
    ensures var (r, n) := DecodeRune(p);
      if p == [] then (r, n) == (0xFFFD, 0)
      else 1 <= n <= |p| && ((ScalarValue(r) && p[..n] == Encode(r)) || (r == 0xFFFD && n == 1))
  {
    hide Low6, Encode;
    var n := DecodeRune(p).1;
    if n == 1 {
      EncodeOne(p[0]);
    } else if n == 2 {
      DecodedTwo(p);
    } else if n == 3 {
      DecodedThree(p);
    } else if n == 4 {
      DecodedFour(p);
    }
  }

  lemma EncodeOne(b: Byte)
    ensures b < 0x80 ==> Encode(b) == [b]
  {
  }

  lemma DecodedTwo(p: seq<Byte>)
    requires DecodeRune(p).1 == 2
    ensures ScalarValue(DecodeRune(p).0) && p[..2] == Encode(DecodeRune(p).0)
  {
    hide Low6, Encode;
    Payload(p[1]);
    EncodeTwo(p[0] % 32, Low6(p[1]));
  }

  lemma DecodedThree(p: seq<Byte>)
    requires DecodeRune(p).1 == 3
    ensures ScalarValue(DecodeRune(p).0) && p[..3] == Encode(DecodeRune(p).0)
  {
    hide Low6, Encode;
    Payload(p[1]);
    Payload(p[2]);
    EncodeThree(p[0] % 16, Low6(p[1]), Low6(p[2]));
  }

  lemma DecodedFour(p: seq<Byte>)
    requires DecodeRune(p).1 == 4
    ensures ScalarValue(DecodeRune(p).0) && p[..4] == Encode(DecodeRune(p).0)
  {
    hide Low6, Encode;
    Payload(p[1]);
    Payload(p[2]);
    Payload(p[3]);
    EncodeFour(p[0] % 8, Low6(p[1]), Low6(p[2]), Low6(p[3]));
  }
}
