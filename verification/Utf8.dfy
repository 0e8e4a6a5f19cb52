/** UTF-8 as `String` stores it and `String::from_utf8` accepts it. */
module Utf8 {
  import opened Wrappers
  import opened Words

  function EncodeChar(c: char): (r: seq<Byte>)
    ensures 1 <= |r| <= 4
  {
    var n := c as int;
    if n < 0x80 then [n]
    else if n < 0x800 then [0xC0 + n / 64, 0x80 + n % 64]
    else if n < 0x1_0000 then [0xE0 + n / 64 / 64, 0x80 + n / 64 % 64, 0x80 + n % 64]
    else [0xF0 + n / 64 / 64 / 64, 0x80 + n / 64 / 64 % 64, 0x80 + n / 64 % 64, 0x80 + n % 64]
  }

  function Encode(s: string): seq<Byte> {
    if s == [] then [] else EncodeChar(s[0]) + Encode(s[1..])
  }

  predicate IsContinuation(b: Byte) {
    0x80 <= b < 0xC0
  }

  /** A Unicode scalar value that needs at least `least`, so that no over-long form is accepted. */
  predicate IsScalar(n: int, least: nat) {
    least <= n < 0x11_0000 && !(0xD800 <= n < 0xE000)
  }

  datatype Lead = Lead(scalar: char, length: nat)

  function LeadOf(n: int, least: nat, length: nat): Option<Lead> {
    if IsScalar(n, least) then Some(Lead(n as char, length)) else None
  }

  /** The first character of a byte string and the number of bytes it takes. */
  function DecodeChar(b: seq<Byte>): (r: Option<Lead>)
    requires b != []
    ensures r.Some? ==> 1 <= r.value.length <= |b|
  {
    var b0: int := b[0];
    if b0 < 0x80 then Some(Lead(b0 as char, 1))
    else if 0xC0 <= b0 < 0xE0 && |b| >= 2 && IsContinuation(b[1]) then
      var b1: int := b[1];
      LeadOf(64 * (b0 - 0xC0) + (b1 - 0x80), 0x80, 2)
    else if 0xE0 <= b0 < 0xF0 && |b| >= 3 && IsContinuation(b[1]) && IsContinuation(b[2]) then
      var b1: int, b2: int := b[1], b[2];
      LeadOf(64 * (64 * (b0 - 0xE0) + (b1 - 0x80)) + (b2 - 0x80), 0x800, 3)
    else if 0xF0 <= b0 < 0xF8 && |b| >= 4
            && IsContinuation(b[1]) && IsContinuation(b[2]) && IsContinuation(b[3]) then
      var b1: int, b2: int, b3: int := b[1], b[2], b[3];
      LeadOf(64 * (64 * (64 * (b0 - 0xF0) + (b1 - 0x80)) + (b2 - 0x80)) + (b3 - 0x80), 0x1_0000, 4)
    else None
  }

  function Decode(b: seq<Byte>): Option<string>
    decreases |b|
  {
    if b == [] then Some([])
    else
      match DecodeChar(b)
      case None => None
      case Some(lead) =>
        match Decode(b[lead.length..])
        case None => None
        case Some(tail) => Some([lead.scalar] + tail)
  }

  lemma Base64Split(n: nat)
    ensures n == 64 * (n / 64) + n % 64
    ensures 0 <= n % 64 < 64
  {
  }

  lemma Base64Join(hi: nat, lo: nat)
    requires lo < 64
    ensures (64 * hi + lo) / 64 == hi && (64 * hi + lo) % 64 == lo
  {
  }

  lemma DecodeEncodedChar(c: char, rest: seq<Byte>)
    ensures DecodeChar(EncodeChar(c) + rest) == Some(Lead(c, |EncodeChar(c)|))
  {
    var n := c as int;
    var e := EncodeChar(c);
    var b := e + rest;
    assert forall i | 0 <= i < |e| :: b[i] == e[i];
    Base64Split(n);
    Base64Split(n / 64);
    Base64Split(n / 64 / 64);
  }

  lemma EncodeDecodedPair(b0: nat, b1: nat)
    requires b0 < 0x20 && b1 < 0x40 && IsScalar(64 * b0 + b1, 0x80)
    ensures EncodeChar((64 * b0 + b1) as char) == [0xC0 + b0, 0x80 + b1]
  {
    Base64Join(b0, b1);
  }

  lemma EncodeDecodedTriple(b0: nat, b1: nat, b2: nat)
    requires b0 < 0x10 && b1 < 0x40 && b2 < 0x40 && IsScalar(64 * (64 * b0 + b1) + b2, 0x800)
    ensures EncodeChar((64 * (64 * b0 + b1) + b2) as char) == [0xE0 + b0, 0x80 + b1, 0x80 + b2]
  {
    Base64Join(b0, b1);
    Base64Join(64 * b0 + b1, b2);
  }

  lemma EncodeDecodedQuad(b0: nat, b1: nat, b2: nat, b3: nat)
    requires b0 < 8 && b1 < 0x40 && b2 < 0x40 && b3 < 0x40
    requires IsScalar(64 * (64 * (64 * b0 + b1) + b2) + b3, 0x1_0000)
    ensures EncodeChar((64 * (64 * (64 * b0 + b1) + b2) + b3) as char) == [0xF0 + b0, 0x80 + b1, 0x80 + b2, 0x80 + b3]
  {
    Base64Join(b0, b1);
    Base64Join(64 * b0 + b1, b2);
    Base64Join(64 * (64 * b0 + b1) + b2, b3);
  }

  lemma EncodeDecodedChar(b: seq<Byte>)
    requires b != [] && DecodeChar(b).Some?
    ensures EncodeChar(DecodeChar(b).value.scalar) == b[..DecodeChar(b).value.length]
  {
    var length := DecodeChar(b).value.length;
    if length == 1 {
      assert b[..1] == [b[0]];
    } else {
      hide EncodeChar;
      if length == 2 {
        EncodeDecodedPair(b[0] - 0xC0, b[1] - 0x80);
        assert b[..2] == [b[0], b[1]];
      } else if length == 3 {
        EncodeDecodedTriple(b[0] - 0xE0, b[1] - 0x80, b[2] - 0x80);
        assert b[..3] == [b[0], b[1], b[2]];
      } else {
        EncodeDecodedQuad(b[0] - 0xF0, b[1] - 0x80, b[2] - 0x80, b[3] - 0x80);
        assert b[..4] == [b[0], b[1], b[2], b[3]];
      }
    }
  }

  lemma {:induction false} DecodeEncode(s: string)
    ensures Decode(Encode(s)) == Some(s)
  {
    hide EncodeChar, DecodeChar;
    if s != [] {
      var first := EncodeChar(s[0]);
      DecodeEncodedChar(s[0], Encode(s[1..]));
      assert Encode(s) == first + Encode(s[1..]);
      assert Encode(s)[|first|..] == Encode(s[1..]);
      DecodeEncode(s[1..]);
      assert s == [s[0]] + s[1..];
    }
  }

  lemma {:induction false} EncodeDecode(b: seq<Byte>)
    requires Decode(b).Some?
    ensures Encode(Decode(b).value) == b
    decreases |b|
  {
    hide EncodeChar, DecodeChar;
    if b != [] {
      var lead := DecodeChar(b).value;
      EncodeDecodedChar(b);
      EncodeDecode(b[lead.length..]);
      var tail := Decode(b[lead.length..]).value;
      assert Decode(b).value == [lead.scalar] + tail;
      assert ([lead.scalar] + tail)[1..] == tail;
      assert b == b[..lead.length] + b[lead.length..];
    }
  }

  lemma EncodeInjective(s: string, t: string)
    requires Encode(s) == Encode(t)
    ensures s == t
  {
    DecodeEncode(s);
    DecodeEncode(t);
  }

  /** The scalar value is spread over the bytes as section 3 of RFC 3629 lays out. */
  lemma EncodedScalar(c: char)
    ensures var n := c as int;
            var b: seq<int> := EncodeChar(c);
            && |b| == (if n < 0x80 then 1 else if n < 0x800 then 2 else if n < 0x1_0000 then 3 else 4)
            && (forall i | 1 <= i < |b| :: 0x80 <= b[i] < 0xC0)
            && (|b| == 1 ==> n == b[0])
            && (|b| == 2 ==> n == 64 * (b[0] - 0xC0) + (b[1] - 0x80))
            && (|b| == 3 ==> n == 4096 * (b[0] - 0xE0) + 64 * (b[1] - 0x80) + (b[2] - 0x80))
            && (|b| == 4 ==>
                  n == 262144 * (b[0] - 0xF0) + 4096 * (b[1] - 0x80) + 64 * (b[2] - 0x80) + (b[3] - 0x80))
  {
    var n := c as int;
    Base64Split(n);
    Base64Split(n / 64);
    Base64Split(n / 64 / 64);
  }
}
