/** Reading text back from bytes: only what encoding could have written is accepted. */
module Utf8Decode {
  import opened Wrappers
  import opened Utf8Text

  /** How long the character that opens with `b` claims to be; 0 for no opening byte. */
  function ClaimedWidth(b: byte): nat
  {
    if b < 0x80 then 1
    else if 0xC0 <= b < 0xE0 then 2
    else if 0xE0 <= b < 0xF0 then 3
    else if 0xF0 <= b < 0xF8 then 4
    else 0
  }

  function Bits(b: byte): int { b - 0x80 }

  /** The number the claimed bytes spell, whether or not it is a character. */
  function Spelled(bytes: seq<byte>): int
    requires bytes != [] && |bytes| >= ClaimedWidth(bytes[0])
  {
    var b := bytes[0];
    match ClaimedWidth(b)
    case 0 => -1
    case 1 => b
    case 2 => (b - 0xC0) * 64 + Bits(bytes[1])
    case 3 => (b - 0xE0) * 4096 + Bits(bytes[1]) * 64 + Bits(bytes[2])
    case _ => (b - 0xF0) * 262144 + Bits(bytes[1]) * 4096 + Bits(bytes[2]) * 64 + Bits(bytes[3])
  }

  predicate IsScalar(v: int) { 0 <= v < 0xD800 || 0xE000 <= v < 0x11_0000 }

  /** The first character, when the bytes open with an encoded one. */
  function FirstChar(bytes: seq<byte>): (c: Option<char>)
    ensures c.Some? ==> Encode(c.value) <= bytes
  {
    if bytes == [] || |bytes| < ClaimedWidth(bytes[0]) || !IsScalar(Spelled(bytes)) then None
    else
      var c := Spelled(bytes) as char;
      if Encode(c) <= bytes then Some(c) else None
  }

  function Decode(bytes: seq<byte>): (s: Option<string>)
    decreases |bytes|
  {
    if bytes == [] then Some("")
    else match FirstChar(bytes)
         case None => None
         case Some(c) =>
           match Decode(bytes[Width(c)..])
           case None => None
           case Some(rest) => Some([c] + rest)
  }

  lemma FirstCharOfEncoded(c: char, rest: seq<byte>)
    ensures FirstChar(Encode(c) + rest) == Some(c)
  {
    var bytes := Encode(c) + rest;
    assert bytes[0] == Encode(c)[0];
    SpelledChar(c, bytes);
  }

  /** A number is what its six-bit digits spell. */
  lemma SixBitDigits(v: nat)
    ensures v == v / 64 * 64 + v % 64
    ensures v == v / 4096 * 4096 + v / 64 % 64 * 64 + v % 64
    ensures v == v / 262144 * 262144 + v / 4096 % 64 * 4096 + v / 64 % 64 * 64 + v % 64
  {
    var a := v / 64;
    var b := a / 64;
    assert v / 4096 == b && v / 262144 == b / 64;
  }

  lemma SpelledChar(c: char, bytes: seq<byte>)
    requires Encode(c) <= bytes
    ensures ClaimedWidth(bytes[0]) == Width(c) && Spelled(bytes) == c as int
  {
    var v, e := c as int, Encode(c);
    SixBitDigits(v);
    assert bytes[0] == e[0];
    assert |e| > 1 ==> bytes[1] == e[1];
    assert |e| > 2 ==> bytes[2] == e[2];
    assert |e| > 3 ==> bytes[3] == e[3];
    OpeningByte(c);
  }

  lemma OpeningByte(c: char)
    ensures ClaimedWidth(Encode(c)[0]) == Width(c)
  {
  }

  /** Decoding inverts encoding. */
  lemma {:induction false} DecodeEncoded(s: string)
    ensures Decode(Utf8(s)) == Some(s)
  {
    if s != "" {
      var rest := Utf8(s[1..]);
      FirstCharOfEncoded(s[0], rest);
      assert (Encode(s[0]) + rest)[Width(s[0])..] == rest;
      DecodeEncoded(s[1..]);
      assert s == [s[0]] + s[1..];
    }
  }

  /** What decodes was encoded: nothing else is accepted. */
  lemma {:induction false} DecodedIsEncoded(bytes: seq<byte>)
    ensures Decode(bytes).Some? ==> Utf8(Decode(bytes).value) == bytes
    decreases |bytes|
  {
    if bytes != [] && Decode(bytes).Some? {
      var c, tail, rest := DecodeStep(bytes);
      DecodedIsEncoded(tail);
      Utf8Cons(c, rest);
    }
  }

  lemma DecodeStep(bytes: seq<byte>) returns (c: char, tail: seq<byte>, rest: string)
    requires bytes != [] && Decode(bytes).Some?
    ensures bytes == Encode(c) + tail && |tail| < |bytes|
    ensures Decode(tail) == Some(rest) && Decode(bytes) == Some([c] + rest)
  {
    c := FirstChar(bytes).value;
    tail := bytes[Width(c)..];
    rest := Decode(tail).value;
  }

  lemma Utf8Cons(c: char, s: string)
    ensures Utf8([c] + s) == Encode(c) + Utf8(s)
  {
    assert ([c] + s)[1..] == s;
  }
}
