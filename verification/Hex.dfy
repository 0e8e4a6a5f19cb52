/** Hexadecimal text and the password file's three lines. */
module Hex {
  import opened Wrappers
  import opened Words
  import opened Api
  import Utf8

  const DIGITS: string := "0123456789abcdef"

  function HexOf(bytes: seq<Byte>): string {
    if bytes == [] then "" else [DIGITS[bytes[0] / 16], DIGITS[bytes[0] % 16]] + HexOf(bytes[1..])
  }

  method EncodeHex(bytes: seq<Byte>) returns (r: string)
    ensures r == HexOf(bytes)
  {
    r := "";
    for i := 0 to |bytes|
      invariant r == HexOf(bytes[..i])
    {
      assert bytes[..i + 1] == bytes[..i] + [bytes[i]];
      HexOfSnoc(bytes[..i], bytes[i]);
      r := r + [DIGITS[bytes[i] / 16]];
      r := r + [DIGITS[bytes[i] % 16]];
    }
    assert bytes[..|bytes|] == bytes;
  }

  lemma {:induction false} HexOfSnoc(bytes: seq<Byte>, b: Byte)
    ensures HexOf(bytes + [b]) == HexOf(bytes) + [DIGITS[b / 16]] + [DIGITS[b % 16]]
  {
    if bytes == [] {
      assert bytes + [b] == [b] && [b][1..] == [];
    } else {
      assert (bytes + [b])[1..] == bytes[1..] + [b];
      HexOfSnoc(bytes[1..], b);
    }
  }

  /** `hex_nibble`: both cases of letters are read. */
  function Nibble(b: Byte): (r: Option<nat>)
    ensures r.Some? ==> r.value < 16
  {
    if 48 <= b <= 57 then Some(b - 48)
    else if 97 <= b <= 102 then Some(b - 97 + 10)
    else if 65 <= b <= 70 then Some(b - 65 + 10)
    else None
  }

  function Pair(high: Byte, low: Byte): Option<Byte> {
    if Nibble(high).Some? && Nibble(low).Some? then Some(16 * Nibble(high).value + Nibble(low).value) else None
  }

  function Prepend(bytes: seq<Byte>, rest: Option<seq<Byte>>): Option<seq<Byte>> {
    if rest.None? then None else Some(bytes + rest.value)
  }

  /** The bytes that the digits spell, two at a time. */
  function BytesOf(digits: seq<Byte>): Option<seq<Byte>>
    decreases |digits|
  {
    if digits == [] then Some([])
    else if |digits| == 1 || Pair(digits[0], digits[1]).None? then None
    else Prepend([Pair(digits[0], digits[1]).value], BytesOf(digits[2..]))
  }

  function DecodeHex(value: string, n: nat): Result<seq<Byte>, Error> {
    var digits := Utf8.Encode(value);
    if |digits| != 2 * n then Err(InvalidInput)
    else match BytesOf(digits) case None => Err(InvalidInput) case Some(bytes) => Ok(bytes)
  }

  method ReadHex(value: string, n: nat) returns (r: Result<seq<Byte>, Error>)
    ensures r == DecodeHex(value, n)
  {
    hide Pair, Prepend, BytesOf, Utf8.Encode;
    var digits := Utf8.Encode(value);
    if |digits| != 2 * n {
      return Err(InvalidInput);
    }
    var output: seq<Byte> := [];
    PrependNothing(digits);
    for i := 0 to n
      invariant BytesOf(digits) == Prepend(output, BytesOf(digits[2 * i..]))
    {
      var byte := Pair(digits[2 * i], digits[2 * i + 1]);
      BytesOfUnfolds(output, digits, 2 * i);
      if byte.None? {
        return Err(InvalidInput);
      }
      output := output + [byte.value];
    }
    NoDigits(output);
    assert digits[2 * n..] == [];
    return Ok(output);
  }

  lemma PrependNothing(digits: seq<Byte>)
    ensures BytesOf(digits) == Prepend([], BytesOf(digits[0..]))
  {
    assert digits[0..] == digits;
    if BytesOf(digits).Some? {
      assert [] + BytesOf(digits).value == BytesOf(digits).value;
    }
  }

  lemma NoDigits(bytes: seq<Byte>)
    ensures Prepend(bytes, BytesOf([])) == Some(bytes)
  {
    assert bytes + [] == bytes;
  }

  lemma BytesOfUnfolds(bytes: seq<Byte>, digits: seq<Byte>, k: nat)
    requires k + 2 <= |digits|
    ensures var byte := Pair(digits[k], digits[k + 1]);
            Prepend(bytes, BytesOf(digits[k..]))
            == if byte.None? then None else Prepend(bytes + [byte.value], BytesOf(digits[k + 2..]))
  {
    hide Pair;
    var tail := digits[k..];
    assert tail[0] == digits[k] && tail[1] == digits[k + 1] && tail[2..] == digits[k + 2..];
    var byte, rest := Pair(digits[k], digits[k + 1]), BytesOf(digits[k + 2..]);
    if byte.Some? && rest.Some? {
      assert bytes + ([byte.value] + rest.value) == bytes + [byte.value] + rest.value;
    }
  }

  /* ----- Round trip ----- */

  lemma DigitReads(d: nat)
    requires d < 16
    ensures Utf8.EncodeChar(DIGITS[d]) == [DIGITS[d] as int] && Nibble(DIGITS[d] as int) == Some(d)
    ensures DIGITS[d] != '\n' && DIGITS[d] != '\r'
  {
  }

  lemma EncodePair(c: char, d: char, rest: string)
    requires c as int < 128 && d as int < 128
    ensures Utf8.Encode([c, d] + rest) == [c as int, d as int] + Utf8.Encode(rest)
  {
    var s := [c, d] + rest;
    assert s[1..] == [d] + rest && s[1..][1..] == rest;
    assert Utf8.Encode(s) == [c as int] + Utf8.Encode(s[1..]);
    assert Utf8.Encode(s[1..]) == [d as int] + Utf8.Encode(rest);
  }

  lemma PairOfByte(b: Byte)
    ensures |DIGITS| == 16
    ensures DIGITS[b / 16] as int < 128 && DIGITS[b % 16] as int < 128
    ensures Pair(DIGITS[b / 16] as int, DIGITS[b % 16] as int) == Some(b)
  {
    DigitReads(b / 16);
    DigitReads(b % 16);
  }

  lemma PrependByte(digits: seq<Byte>, bytes: seq<Byte>)
    requires bytes != [] && |digits| >= 2 && Pair(digits[0], digits[1]) == Some(bytes[0])
    requires BytesOf(digits[2..]) == Some(bytes[1..])
    ensures BytesOf(digits) == Some(bytes)
  {
    hide Pair;
    assert bytes == [bytes[0]] + bytes[1..];
  }

  lemma {:induction false} HexReads(bytes: seq<Byte>)
    ensures |Utf8.Encode(HexOf(bytes))| == 2 * |bytes|
    ensures BytesOf(Utf8.Encode(HexOf(bytes))) == Some(bytes)
  {
    hide Pair, BytesOf, Utf8.Encode, DIGITS;
    if bytes == [] {
      NoHex();
      NoDigits([]);
    } else {
      PairOfByte(bytes[0]);
      HexReads(bytes[1..]);
      EncodePair(DIGITS[bytes[0] / 16], DIGITS[bytes[0] % 16], HexOf(bytes[1..]));
      var digits := Utf8.Encode(HexOf(bytes));
      assert digits[2..] == Utf8.Encode(HexOf(bytes[1..]));
      PrependByte(digits, bytes);
    }
  }

  /** No digit breaks a line. */
  lemma {:induction false} HexIsOneLine(bytes: seq<Byte>)
    ensures '\n' !in HexOf(bytes) && '\r' !in HexOf(bytes)
  {
    if bytes != [] {
      DigitReads(bytes[0] / 16);
      DigitReads(bytes[0] % 16);
      HexIsOneLine(bytes[1..]);
    }
  }

  lemma NoHex()
    ensures Utf8.Encode("") == []
  {
  }

  lemma HexRoundTrip(bytes: seq<Byte>)
    ensures DecodeHex(HexOf(bytes), |bytes|) == Ok(bytes)
  {
    HexReads(bytes);
  }

  /* ----- What the digits mean ----- */

  /** The value of a hexadecimal digit of either case. */
  predicate IsDigit(b: Byte, d: nat) {
    || (0x30 <= b <= 0x39 && d == b - 0x30)
    || (0x61 <= b <= 0x66 && d == b - 0x61 + 10)
    || (0x41 <= b <= 0x46 && d == b - 0x41 + 10)
  }

  ghost predicate SpellsByte(high: Byte, low: Byte, b: int) {
    exists h: nat, l: nat :: IsDigit(high, h) && IsDigit(low, l) && b == 16 * h + l
  }

  /** Each byte is spelled by two digits, the more significant first. */
  ghost predicate SpellsBytes(digits: seq<Byte>, bytes: seq<Byte>) {
    && |digits| == 2 * |bytes|
    && forall i | 0 <= i < |bytes| :: SpellsByte(digits[2 * i], digits[2 * i + 1], bytes[i])
  }

  lemma {:induction false} HexLength(bytes: seq<Byte>)
    ensures |HexOf(bytes)| == 2 * |bytes|
  {
    if bytes != [] {
      HexLength(bytes[1..]);
    }
  }

  /** What is written is lower case. */
  lemma {:induction false} HexIsLowerCase(bytes: seq<Byte>)
    ensures forall c <- HexOf(bytes) :: '0' <= c <= '9' || 'a' <= c <= 'f'
  {
    if bytes != [] {
      DigitReads(bytes[0] / 16);
      DigitReads(bytes[0] % 16);
      LowerDigit(bytes[0] / 16);
      LowerDigit(bytes[0] % 16);
      HexIsLowerCase(bytes[1..]);
    }
  }

  lemma LowerDigit(d: nat)
    requires d < 16
    ensures '0' <= DIGITS[d] <= '9' || 'a' <= DIGITS[d] <= 'f'
  {
  }

  lemma NibbleIff(b: Byte, d: nat)
    ensures Nibble(b) == Some(d) <==> IsDigit(b, d)
  {
  }

  lemma PairIff(high: Byte, low: Byte, b: Byte)
    ensures Pair(high, low) == Some(b) <==> SpellsByte(high, low, b)
  {
    hide Nibble, IsDigit;
    forall d: nat ensures Nibble(high) == Some(d) <==> IsDigit(high, d) {
      NibbleIff(high, d);
    }
    forall d: nat ensures Nibble(low) == Some(d) <==> IsDigit(low, d) {
      NibbleIff(low, d);
    }
    if Pair(high, low) == Some(b) {
      assert IsDigit(high, Nibble(high).value) && IsDigit(low, Nibble(low).value);
    }
  }

  lemma {:induction false} BytesOfIff(digits: seq<Byte>, bytes: seq<Byte>)
    ensures BytesOf(digits) == Some(bytes) <==> SpellsBytes(digits, bytes)
    decreases |digits|
  {
    hide Pair, SpellsByte;
    if digits != [] && |digits| >= 2 && bytes != [] {
      PairIff(digits[0], digits[1], bytes[0]);
      BytesOfIff(digits[2..], bytes[1..]);
      SpellsUnfold(digits, bytes);
      assert bytes == [bytes[0]] + bytes[1..];
    }
  }

  lemma SpellsUnfold(digits: seq<Byte>, bytes: seq<Byte>)
    requires |digits| >= 2 && bytes != []
    ensures SpellsBytes(digits, bytes) <==>
            SpellsByte(digits[0], digits[1], bytes[0]) && SpellsBytes(digits[2..], bytes[1..])
  {
    hide SpellsByte;
    var rest, more := digits[2..], bytes[1..];
    if SpellsBytes(digits, bytes) {
      assert SpellsByte(digits[2 * 0], digits[2 * 0 + 1], bytes[0]);
      forall i | 0 <= i < |more| ensures SpellsByte(rest[2 * i], rest[2 * i + 1], more[i]) {
        assert SpellsByte(digits[2 * (i + 1)], digits[2 * (i + 1) + 1], bytes[i + 1]);
      }
    }
    if SpellsByte(digits[0], digits[1], bytes[0]) && SpellsBytes(rest, more) {
      forall i | 0 <= i < |bytes| ensures SpellsByte(digits[2 * i], digits[2 * i + 1], bytes[i]) {
        if i > 0 {
          assert SpellsByte(rest[2 * (i - 1)], rest[2 * (i - 1) + 1], more[i - 1]);
        }
      }
    }
  }

  /** A string of the right length is read exactly when it spells the bytes. */
  lemma DecodesHexIff(value: string, n: nat, bytes: seq<Byte>)
    ensures DecodeHex(value, n) == Ok(bytes) <==> SpellsBytes(Utf8.Encode(value), bytes) && |bytes| == n
  {
    hide BytesOf, Utf8.Encode;
    BytesOfIff(Utf8.Encode(value), bytes);
  }

  /* ----- Lines ----- */

  /** The part before the first newline, and the rest after it, if there is one. */
  function Line(s: string): (r: (string, Option<string>))
    ensures r.1.Some? ==> s == r.0 + "\n" + r.1.value
    ensures r.1.None? ==> r.0 == s
  {
    if s == "" then ("", None)
    else if s[0] == '\n' then ("", Some(s[1..]))
    else var (line, rest) := Line(s[1..]); ([s[0]] + line, rest)
  }

  function WithoutReturn(line: string): string {
    if line != "" && line[|line| - 1] == '\r' then line[..|line| - 1] else line
  }

  /** The lines of a text, as `str::lines` gives them. */
  function Lines(s: string): seq<string>
    decreases |s|
  {
    if s == "" then []
    else
      var (line, rest) := Line(s);
      if rest.None? then [line] else [WithoutReturn(line)] + Lines(rest.value)
  }

  lemma {:induction false} LineOfText(line: string, rest: string)
    requires '\n' !in line
    ensures Line(line + "\n" + rest) == (line, Some(rest))
  {
    var s := line + "\n" + rest;
    if line == "" {
      assert s[1..] == rest;
    } else {
      assert s[0] == line[0] && s[1..] == line[1..] + "\n" + rest;
      LineOfText(line[1..], rest);
      assert [line[0]] + line[1..] == line;
    }
  }

  lemma LinesOfText(line: string, rest: string)
    requires '\n' !in line && '\r' !in line
    ensures Lines(line + "\n" + rest) == [line] + Lines(rest)
  {
    LineOfText(line, rest);
  }

  /** A line ends with a newline or with a carriage return and a newline; the last one needs neither. */
  lemma LinesSpell(line: string, rest: string)
    requires '\n' !in line
    ensures Lines(line + "\r\n" + rest) == [line] + Lines(rest)
    ensures line != "" ==> Lines(line) == [line]
  {
    assert line + "\r\n" + rest == (line + "\r") + "\n" + rest;
    LineOfText(line + "\r", rest);
    assert (line + "\r")[..|line|] == line;
  }
}
