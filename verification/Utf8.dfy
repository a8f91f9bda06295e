/** UTF-8, section 3 of RFC 3629: encoding, strict decoding, and that they are inverse. */
module Utf8 {
  import opened Wrappers
  import opened ByteStrings

  /** `char::encode_utf8`. */
  function EncodeChar(c: char): (b: Bytes)
    ensures 1 <= |b| <= 4
  {
    var n := c as int;
    if n < 0x80 then [n as byte]
    else if n < 0x800 then [(0xC0 + n / 0x40) as byte, Low(n)]
    else if n < 0x1_0000 then [(0xE0 + n / 0x40 / 0x40) as byte, Low(n / 0x40), Low(n)]
    else [(0xF0 + n / 0x40 / 0x40 / 0x40) as byte, Low(n / 0x40 / 0x40), Low(n / 0x40), Low(n)]
  }

  /** A continuation byte holding the low six bits. */
  function Low(n: nat): byte {
    (0x80 + n % 0x40) as byte
  }

  function Encode(s: string): Bytes {
    if s == [] then [] else EncodeChar(s[0]) + Encode(s[1..])
  }

  predicate IsContinuation(b: byte) {
    0x80 <= b < 0xC0
  }

  predicate IsScalar(n: int) {
    0 <= n < 0xD800 || 0xE000 <= n < 0x11_0000
  }

  /** How many bytes a character starting with `b` takes; none starts with a continuation byte. */
  function Width(b: byte): (w: nat)
    ensures w <= 4
  {
    if b < 0x80 then 1 else if b < 0xC0 then 0 else if b < 0xE0 then 2 else if b < 0xF0 then 3 else if b < 0xF8 then 4
    else 0
  }

  predicate Continues(b: Bytes, w: nat)
    requires w <= |b|
  {
    forall i :: 1 <= i < w ==> IsContinuation(b[i])
  }

  function Payload(b: Bytes, w: nat): int
    requires 1 <= w <= 4 && w <= |b|
  {
    match w
    case 1 => b[0] as int
    case 2 => (b[0] as int - 0xC0) * 0x40 + Bits(b[1])
    case 3 => ((b[0] as int - 0xE0) * 0x40 + Bits(b[1])) * 0x40 + Bits(b[2])
    case _ => (((b[0] as int - 0xF0) * 0x40 + Bits(b[1])) * 0x40 + Bits(b[2])) * 0x40 + Bits(b[3])
  }

  function Bits(b: byte): int {
    b as int - 0x80
  }

  /** The least code point that needs `w` bytes. */
  function Shortest(w: nat): int {
    if w <= 1 then 0 else if w == 2 then 0x80 else if w == 3 then 0x800 else 0x1_0000
  }

  /** The character `b` starts with, if it starts with the shortest form of one. */
  function DecodeFirst(b: Bytes): (r: Option<char>)
    requires b != []
    ensures r.Some? ==> 1 <= Width(b[0]) <= |b|
  {
    var w := Width(b[0]);
    if w == 0 || w > |b| || !Continues(b, w) then None
    else
      var n := Payload(b, w);
      if n < Shortest(w) || !IsScalar(n) then None else Some(n as char)
  }

  /** `String::from_utf8`. */
  function Decode(b: Bytes): Option<string> {
    if b == [] then Some([])
    else
      var first := DecodeFirst(b);
      if first.None? then None
      else
        var rest := Decode(b[Width(b[0])..]);
        if rest.None? then None else Some([first.value] + rest.value)
  }

  lemma DecodeFirstOfEncoded(c: char, tail: Bytes)
    ensures DecodeFirst(EncodeChar(c) + tail) == Some(c)
    ensures Width((EncodeChar(c) + tail)[0]) == |EncodeChar(c)|
  {
  }

  lemma Digit(q: int, r: int)
    requires 0 <= r < 0x40
    ensures (q * 0x40 + r) / 0x40 == q && (q * 0x40 + r) % 0x40 == r
  {
  }

  /** Strictness: what decodes is the encoding of what it decodes to. */
  lemma EncodeOfDecodedFirst(b: Bytes)
    requires b != [] && DecodeFirst(b).Some?
    ensures EncodeChar(DecodeFirst(b).value) == b[..Width(b[0])]
  {
    var w := Width(b[0]);
    var n := Payload(b, w);
    if w == 2 {
      Digit(b[0] as int - 0xC0, Bits(b[1]));
    } else if w == 3 {
      var m := (b[0] as int - 0xE0) * 0x40 + Bits(b[1]);
      Digit(m, Bits(b[2]));
      Digit(b[0] as int - 0xE0, Bits(b[1]));
    } else if w == 4 {
      var k := (b[0] as int - 0xF0) * 0x40 + Bits(b[1]);
      var m := k * 0x40 + Bits(b[2]);
      Digit(m, Bits(b[3]));
      Digit(k, Bits(b[2]));
      Digit(b[0] as int - 0xF0, Bits(b[1]));
    }
  }

  /** Decoding undoes encoding. */
  lemma {:induction false} DecodeOfEncoded(s: string)
    ensures Decode(Encode(s)) == Some(s)
  {
    hide EncodeChar, DecodeFirst, Width;
    if s != [] {
      var first, rest := EncodeChar(s[0]), Encode(s[1..]);
      DecodeFirstOfEncoded(s[0], rest);
      DecodeOfEncoded(s[1..]);
      assert (first + rest)[|first|..] == rest;
      assert [s[0]] + s[1..] == s;
    }
  }

  /** Decoding accepts nothing but encodings. */
  lemma {:induction false} EncodeOfDecoded(b: Bytes)
    requires Decode(b).Some?
    ensures Encode(Decode(b).value) == b
  {
    hide EncodeChar, DecodeFirst;
    if b != [] {
      EncodeOfDecodedFirst(b);
      EncodeOfDecoded(b[Width(b[0])..]);
      assert Decode(b).value[1..] == Decode(b[Width(b[0])..]).value;
    }
  }
}
