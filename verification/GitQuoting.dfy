/** Git's C-style quoting of paths, and the header token parser that undoes it. */
module GitQuoting {
  import opened Wrappers
  import opened ByteStrings
  import opened Utf8
  import opened Whitespace

  // ----- escapes

  /** What was read from the front of a text: its bytes, and how many characters it took. */
  datatype Unescaped = Unescaped(bytes: Bytes, consumed: nat)

  /** `hex_value`, cut off at the base. */
  function DigitValue(c: char, base: nat): (r: Option<nat>)
    ensures r.Some? ==> r.value < base && r.value < 16
  {
    var v := if '0' <= c <= '9' then c as int - '0' as int
             else if 'a' <= c <= 'f' then c as int - 'a' as int + 10
             else if 'A' <= c <= 'F' then c as int - 'A' as int + 10
             else 16;
    if v < base && v < 16 then Some(v) else None
  }

  datatype Number = Number(value: nat, digits: nat)

  /** Reads up to `left` digits behind a number already begun. */
  function ReadDigits(s: string, base: nat, left: nat, begun: Number): (n: Number)
    ensures begun.digits <= n.digits <= begun.digits + left && n.digits <= begun.digits + |s|
    ensures forall i :: 0 <= i < n.digits - begun.digits ==> DigitValue(s[i], base).Some?
    decreases left
  {
    if left == 0 || s == [] || DigitValue(s[0], base).None? then begun
    else
      var n := ReadDigits(s[1..], base, left - 1,
          Number(begun.value * base + DigitValue(s[0], base).value, begun.digits + 1));
      assert forall i :: 1 <= i < n.digits - begun.digits ==> s[i] == s[1..][i - 1];
      n
  }

  function LetterByte(c: char): Option<byte> {
    match c
    case 'n' => Some(0x0A)
    case 't' => Some(0x09)
    case 'r' => Some(0x0D)
    case 'a' => Some(0x07)
    case 'b' => Some(0x08)
    case 'v' => Some(0x0B)
    case 'f' => Some(0x0C)
    case '\\' => Some(0x5C)
    case '"' => Some(0x22)
    case _ => None
  }

  /** The escape whose text, without its backslash, starts `s`. */
  function EscapeAt(s: string): (r: Option<Unescaped>)
    ensures r.Some? ==> 1 <= r.value.consumed <= |s|
  {
    if s == [] then None
    else if DigitValue(s[0], 8).Some? then
      var n := ReadDigits(s[1..], 8, 2, Number(DigitValue(s[0], 8).value, 1));
      if n.value > 255 then None else Some(Unescaped([n.value as byte], n.digits))
    else if s[0] == 'x' then
      var n := ReadDigits(s[1..], 16, 2, Number(0, 0));
      if n.digits == 0 then None else Some(Unescaped([(n.value % 256) as byte], 1 + n.digits))
    else if LetterByte(s[0]).Some? then Some(Unescaped([LetterByte(s[0]).value], 1))
    else if s[0] == '\n' || s[0] == '\r' then None
    else Some(Unescaped(EncodeChar(s[0]), 1))
  }

  /** Everything up to the first unescaped quote, or the end. */
  function Unescape(s: string): (r: Option<Unescaped>)
    ensures r.Some? ==> r.value.consumed <= |s| && (r.value.consumed < |s| ==> s[r.value.consumed] == '"')
  {
    if s == [] || s[0] == '"' then Some(Unescaped([], 0))
    else
      var first := First(s);
      if first.None? then None else Behind(first.value.bytes, first.value.consumed, Unescape(s[first.value.consumed..]))
  }

  /** What was read, put behind what had been read before. */
  function Behind(out: Bytes, idx: nat, u: Option<Unescaped>): Option<Unescaped> {
    if u.None? then None else Some(Unescaped(out + u.value.bytes, idx + u.value.consumed))
  }

  /** The escape or plain character that `s` starts with. */
  function First(s: string): (r: Option<Unescaped>)
    requires s != []
    ensures r.Some? ==> 1 <= r.value.consumed <= |s|
  {
    if s[0] == '\\' then Behind([], 1, EscapeAt(s[1..])) else Some(Unescaped(EncodeChar(s[0]), 1))
  }

  /** The digit loops of `parse_git_c_style_escape`. */
  method ParseDigits(input: string, idx: nat, base: nat, left: nat, begun: Number) returns (n: Number)
    requires idx <= |input|
    ensures n == ReadDigits(input[idx..], base, left, begun)
  {
    hide ReadDigits, DigitValue;
    n := begun;
    var i := idx;
    for k := 0 to left
      invariant idx <= i <= |input|
      invariant ReadDigits(input[idx..], base, left, begun) == ReadDigits(input[i..], base, left - k, n)
    {
      ReadDigitsStep(input, i, base, left - k, n);
      if i >= |input| {
        return;
      }
      var v := DigitValue(input[i], base);
      if v.None? {
        return;
      }
      n := Number(n.value * base + v.value, n.digits + 1);
      i := i + 1;
    }
    ReadDigitsStep(input, i, base, 0, n);
  }

  lemma {:induction false} ReadDigitsStep(input: string, i: nat, base: nat, left: nat, n: Number)
    requires i <= |input|
    ensures left == 0 || i == |input| || DigitValue(input[i], base).None? ==> ReadDigits(input[i..], base, left, n) == n
    ensures left > 0 && i < |input| && DigitValue(input[i], base).Some? ==>
              ReadDigits(input[i..], base, left, n)
              == ReadDigits(input[i + 1..], base, left - 1,
                  Number(n.value * base + DigitValue(input[i], base).value, n.digits + 1))
  {
    hide DigitValue;
    if i < |input| { assert input[i..][1..] == input[i + 1..]; }
  }

  /** `parse_git_c_style_escape`, with the cursor and the output passed through. */
  method ParseEscape(input: string, idx: nat, out: Bytes) returns (r: Option<Unescaped>)
    requires idx <= |input|
    ensures r == Behind(out, idx, EscapeAt(input[idx..]))
  {
    hide ReadDigits, DigitValue, LetterByte;
    if idx >= |input| {
      return None;
    }
    var c := input[idx];
    assert input[idx + 1..] == input[idx..][1..];
    var d := DigitValue(c, 8);
    if d.Some? {
      var n := ParseDigits(input, idx + 1, 8, 2, Number(d.value, 1));
      if n.value > 255 {
        return None;
      }
      return Some(Unescaped(out + [n.value as byte], idx + n.digits));
    }
    if c == 'x' {
      var n := ParseDigits(input, idx + 1, 16, 2, Number(0, 0));
      if n.digits == 0 {
        return None;
      }
      return Some(Unescaped(out + [(n.value % 256) as byte], idx + 1 + n.digits));
    }
    var letter := LetterByte(c);
    if letter.Some? {
      return Some(Unescaped(out + [letter.value], idx + 1));
    }
    if c == '\n' || c == '\r' {
      return None;
    }
    return Some(Unescaped(out + EncodeChar(c), idx + 1));
  }

  /** `parse_git_c_style_bytes`, stopping at an unescaped quote. */
  method ParseCStyleBytes(input: string) returns (r: Option<Unescaped>)
    ensures r == Unescape(input)
  {
    hide EscapeAt, EncodeChar, Unescape, Behind;
    var out: Bytes, idx := [], 0;
    BehindNothing(Unescape(input));
    assert input[0..] == input;
    while idx < |input|
      invariant idx <= |input|
      invariant Unescape(input) == Behind(out, idx, Unescape(input[idx..]))
    {
      var c := input[idx];
      if c == '"' {
        break;
      }
      UnescapeStep(input, idx, out);
      if c == '\\' {
        var e := ParseEscape(input, idx + 1, out);
        EscapeStep(input, idx, out);
        if e.None? {
          return None;
        }
        out, idx := e.value.bytes, e.value.consumed;
      } else {
        out := out + EncodeChar(c);
        idx := idx + 1;
      }
    }
    UnescapeStop(input[idx..], out, idx);
    return Some(Unescaped(out, idx));
  }

  lemma BehindNothing(u: Option<Unescaped>)
    ensures Behind([], 0, u) == u
  {
    if u.Some? { assert [] + u.value.bytes == u.value.bytes; }
  }

  lemma {:induction false} UnescapeStop(s: string, out: Bytes, idx: nat)
    requires s == [] || s[0] == '"'
    ensures Behind(out, idx, Unescape(s)) == Some(Unescaped(out, idx))
  {
    assert out + [] == out;
  }

  lemma UnescapeStep(input: string, idx: nat, out: Bytes)
    requires idx < |input| && input[idx] != '"'
    ensures var first := First(input[idx..]);
            Behind(out, idx, Unescape(input[idx..])) ==
            if first.None? then None
            else Behind(out + first.value.bytes, idx + first.value.consumed,
                Unescape(input[idx + first.value.consumed..]))
  {
    hide First;
    var s := input[idx..];
    var first := First(s);
    if first.Some? {
      assert s[first.value.consumed..] == input[idx + first.value.consumed..];
      var rest := Unescape(s[first.value.consumed..]);
      if rest.Some? { assert out + (first.value.bytes + rest.value.bytes)
          == (out + first.value.bytes) + rest.value.bytes; }
    }
  }

  lemma EscapeStep(input: string, idx: nat, out: Bytes)
    requires idx < |input| && input[idx] == '\\'
    ensures var e, first := Behind(out, idx + 1, EscapeAt(input[idx + 1..])), First(input[idx..]);
            && (e.None? <==> first.None?)
            && (e.Some? ==>
                  && e.value == Unescaped(out + first.value.bytes, idx + first.value.consumed)
                  && e.value.consumed <= |input|)
  {
    hide EscapeAt;
    assert input[idx..][1..] == input[idx + 1..];
  }

  // ----- quoted texts

  /** The escaped character stands for itself. */
  predicate IsSelfEscape(c: char) {
    !('0' <= c <= '7') && c != 'x' && LetterByte(c).None? && c != '\n' && c != '\r'
  }

  /** A plain character, a letter escape, a byte in octal or hexadecimal digits, or another escaped character. */
  datatype Piece = Plain(c: char) | Letter(c: char) | Octal(b: byte) | Hex(b: byte, upper: bool) | Other(c: char) {
    predicate Valid() {
      match this
      case Plain(c) => c != '"' && c != '\\'
      case Letter(c) => LetterByte(c).Some?
      case Octal(_) => true
      case Hex(_, _) => true
      case Other(c) => IsSelfEscape(c)
    }

    function Text(): string {
      match this
      case Plain(c) => [c]
      case Letter(c) => ['\\', c]
      case Octal(b) => "\\" + ThreeOctal(b)
      case Hex(b, upper) => "\\" + TwoHex(b, upper)
      case Other(c) => ['\\', c]
    }

    function Bytes(): Bytes
      requires Valid()
    {
      match this
      case Plain(c) => EncodeChar(c)
      case Letter(c) => [LetterByte(c).value]
      case Octal(b) => [b]
      case Hex(b, _) => [b]
      case Other(c) => EncodeChar(c)
    }
  }

  function OctalDigit(d: nat): char
    requires d < 8
  {
    '0' + d as char
  }

  predicate Valid(pieces: seq<Piece>) {
    forall i :: 0 <= i < |pieces| ==> pieces[i].Valid()
  }

  function Render(pieces: seq<Piece>): string {
    if pieces == [] then [] else pieces[0].Text() + Render(pieces[1..])
  }

  function Meaning(pieces: seq<Piece>): Bytes
    requires Valid(pieces)
  {
    if pieces == [] then [] else pieces[0].Bytes() + Meaning(pieces[1..])
  }

  lemma FirstOfPiece(p: Piece, tail: string)
    requires p.Valid()
    ensures First(p.Text() + tail) == Some(Unescaped(p.Bytes(), |p.Text()|))
    ensures p.Text() != [] && (p.Text() + tail)[0] != '"'
  {
    hide EncodeChar, EscapeAt;
    var s := p.Text() + tail;
    if !p.Plain? {
      EscapeOfPiece(p, tail);
      assert [] + p.Bytes() == p.Bytes();
    }
  }

  lemma EscapeOfPiece(p: Piece, tail: string)
    requires p.Valid() && !p.Plain?
    ensures EscapeAt((p.Text() + tail)[1..]) == Some(Unescaped(p.Bytes(), |p.Text()| - 1))
  {
    hide EncodeChar, ReadDigits, EscapeAt;
    var s := (p.Text() + tail)[1..];
    match p
    case Letter(c) =>
      assert s[0] == c;
      EscapeOfLetter(s);
    case Octal(b) =>
      EscapeOfOctal(b, tail);
      assert s == ThreeOctal(b) + tail;
    case Hex(b, upper) =>
      EscapeOfHex(b, upper, tail);
      assert s == TwoHex(b, upper) + tail;
    case Other(c) =>
      assert s[0] == c;
      EscapeOfOther(s);
  }

  function HexDigit(d: nat, upper: bool): char
    requires d < 16
  {
    if d < 10 then '0' + d as char else (if upper then 'A' else 'a') + (d - 10) as char
  }

  function TwoHex(b: byte, upper: bool): string {
    ['x', HexDigit(b as int / 16, upper), HexDigit(b as int % 16, upper)]
  }

  lemma EscapeOfHex(b: byte, upper: bool, tail: string)
    ensures EscapeAt(TwoHex(b, upper) + tail) == Some(Unescaped([b], 3))
  {
    hide EncodeChar, ReadDigits, LetterByte, HexDigit;
    TwoDigits(b as int / 16, b as int % 16, upper, tail);
    var s := TwoHex(b, upper) + tail;
    assert s[0] == 'x' && s[1..] == [HexDigit(b as int / 16, upper), HexDigit(b as int % 16, upper)] + tail;
  }

  lemma {:induction false} TwoDigits(d1: nat, d0: nat, upper: bool, tail: string)
    requires d1 < 16 && d0 < 16
    ensures ReadDigits([HexDigit(d1, upper), HexDigit(d0, upper)] + tail, 16, 2, Number(0, 0))
            == Number(d1 * 16 + d0, 2)
  {
    var s := [HexDigit(d1, upper), HexDigit(d0, upper)] + tail;
    assert s[0] == HexDigit(d1, upper) && s[1..][0] == HexDigit(d0, upper);
    assert ReadDigits(s, 16, 2, Number(0, 0)) == ReadDigits(s[1..], 16, 1, Number(d1, 1));
  }

  lemma EscapeOfOther(s: string)
    requires s != [] && IsSelfEscape(s[0])
    ensures EscapeAt(s) == Some(Unescaped(EncodeChar(s[0]), 1))
  {
    hide EncodeChar, ReadDigits;
  }

  function ThreeOctal(b: byte): string {
    [OctalDigit(b as int / 64), OctalDigit(b as int / 8 % 8), OctalDigit(b as int % 8)]
  }

  lemma EscapeOfLetter(s: string)
    requires s != [] && LetterByte(s[0]).Some?
    ensures EscapeAt(s) == Some(Unescaped([LetterByte(s[0]).value], 1))
  {
    hide EncodeChar, ReadDigits;
  }

  lemma EscapeOfOctal(b: byte, tail: string)
    ensures EscapeAt(ThreeOctal(b) + tail) == Some(Unescaped([b], 3))
  {
    hide EncodeChar, ReadDigits, DigitValue, LetterByte, OctalDigit;
    ThreeDigits(b as int / 64, b as int / 8 % 8, b as int % 8, tail);
    OctalSum(b as int);
  }

  lemma OctalSum(n: nat)
    ensures n == n / 64 * 64 + n / 8 % 8 * 8 + n % 8
  {
  }

  lemma ThreeDigits(d2: nat, d1: nat, d0: nat, tail: string)
    requires d2 < 8 && d1 < 8 && d0 < 8
    ensures var s := [OctalDigit(d2), OctalDigit(d1), OctalDigit(d0)] + tail;
            && DigitValue(s[0], 8) == Some(d2)
            && ReadDigits(s[1..], 8, 2, Number(d2, 1)) == Number(d2 * 64 + d1 * 8 + d0, 3)
  {
    var s := [OctalDigit(d2), OctalDigit(d1), OctalDigit(d0)] + tail;
    assert s[1..][0] == OctalDigit(d1) && s[1..][1..][0] == OctalDigit(d0);
    assert ReadDigits(s[1..], 8, 2, Number(d2, 1)) == ReadDigits(s[1..][1..], 8, 1, Number(d2 * 8 + d1, 2));
  }

  lemma {:induction false} UnescapeOne(text: string, more: string, first: Unescaped, rest: Unescaped)
    requires text != [] && (text + more)[0] != '"' && First(text + more) == Some(first) && first.consumed == |text|
    requires Unescape(more) == Some(rest)
    ensures Unescape(text + more) == Some(Unescaped(first.bytes + rest.bytes, |text| + rest.consumed))
  {
    hide First;
    assert (text + more)[|text|..] == more;
  }

  /** However a text is quoted, it is read back up to the closing quote. */
  lemma {:induction false} UnescapeRendered(pieces: seq<Piece>, tail: string)
    requires Valid(pieces) && (tail == [] || tail[0] == '"')
    ensures Unescape(Render(pieces) + tail) == Some(Unescaped(Meaning(pieces), |Render(pieces)|))
  {
    hide First, Unescape, Piece.Text, Piece.Bytes;
    if pieces == [] {
      assert Render(pieces) + tail == tail;
      UnescapeStop(tail, [], 0);
      BehindNothing(Unescape(tail));
    } else {
      var p, rest := pieces[0], Render(pieces[1..]);
      UnescapeRendered(pieces[1..], tail);
      FirstOfPiece(p, rest + tail);
      UnescapeOne(p.Text(), rest + tail, Unescaped(p.Bytes(), |p.Text()|), Unescaped(Meaning(pieces[1..]), |rest|));
      assert Render(pieces) + tail == p.Text() + (rest + tail);
    }
  }

  // ----- where reading stops

  lemma {:induction false} ReadDigitsBeforeQuote(s: string, base: nat, left: nat, begun: Number)
    ensures ReadDigits(s + "\"", base, left, begun) == ReadDigits(s, base, left, begun)
    decreases left
  {
    if left > 0 && s != [] && DigitValue(s[0], base).Some? {
      assert (s + "\"")[1..] == s[1..] + "\"";
      ReadDigitsBeforeQuote(s[1..], base, left - 1,
          Number(begun.value * base + DigitValue(s[0], base).value, begun.digits + 1));
    }
  }

  lemma FirstBeforeQuote(s: string)
    requires s != [] && (s[0] == '\\' ==> |s| > 1)
    ensures First(s + "\"") == First(s)
  {
    hide ReadDigits, EncodeChar, DigitValue, LetterByte;
    if s[0] == '\\' {
      assert (s + "\"")[1..] == s[1..] + "\"" && (s[1..] + "\"")[1..] == s[2..] + "\"" && s[1..][1..] == s[2..];
      ReadDigitsBeforeQuote(s[2..], 16, 2, Number(0, 0));
      if DigitValue(s[1], 8).Some? { ReadDigitsBeforeQuote(s[2..], 8, 2, Number(DigitValue(s[1], 8).value, 1)); }
    }
  }

  /** A quote behind a text that does not end in a backslash is never taken for part of it. */
  lemma {:induction false} UnescapeBeforeQuote(s: string)
    requires s == [] || s[|s| - 1] != '\\'
    ensures Unescape(s + "\"") == Unescape(s)
  {
    hide First;
    if s != [] && s[0] != '"' {
      FirstBeforeQuote(s);
      if First(s).Some? {
        var n := First(s).value.consumed;
        assert (s + "\"")[n..] == s[n..] + "\"";
        UnescapeBeforeQuote(s[n..]);
      }
    }
  }

  lemma FirstStopsBefore(s: string, c: nat)
    requires 0 < c < |s| && s[c] == '"' && s[c - 1] != '\\' && First(s).Some?
    ensures First(s).value.consumed <= c
  {
    hide EncodeChar, LetterByte;
    if s[0] == '\\' { assert s[1..][1..] == s[2..]; }
  }

  /** Reading does not go past a quote that no backslash stands in front of. */
  lemma {:induction false} UnescapeStopsBy(s: string, c: nat)
    requires c < |s| && s[c] == '"' && (c > 0 ==> s[c - 1] != '\\') && Unescape(s).Some?
    ensures Unescape(s).value.consumed <= c
  {
    hide First;
    if s[0] != '"' {
      FirstStopsBefore(s, c);
      var n := First(s).value.consumed;
      UnescapeStopsBy(s[n..], c - n);
    }
  }

  // ----- tokens

  datatype Token = Token(text: string, remaining: string)

  /** `parse_diff_token`. */
  function ParseDiffToken(input: string): Option<Token> {
    var s := TrimStart(input);
    if s == [] then None
    else if s[0] == '"' then QuotedToken(s[1..])
    else Some(Token(s[..TokenEnd(s)], s[TokenEnd(s)..]))
  }

  function QuotedToken(rest: string): Option<Token> {
    var u := Unescape(rest);
    if u.None? || Decode(u.value.bytes).None? || u.value.consumed == |rest| then None
    else
      var remaining := rest[u.value.consumed + 1..];
      if remaining != [] && !IsWhitespace(remaining[0]) then None
      else Some(Token(Decode(u.value.bytes).value, remaining))
  }

  /**
   A quoted path, however its bytes are escaped and whatever white space precedes it, parses to the
   path and the untouched remainder; the remainder has to be empty or start with white space.
   */
  lemma {:induction false} QuotedTokenRoundTrip(blank: string, pieces: seq<Piece>, path: string, remaining: string)
    requires AllWhitespace(blank) && Valid(pieces) && Meaning(pieces) == Encode(path)
    ensures ParseDiffToken(blank + ("\"" + (Render(pieces) + ("\"" + remaining)))) ==
            if remaining == [] || IsWhitespace(remaining[0]) then Some(Token(path, remaining)) else None
  {
    hide ParseDiffToken, QuotedToken, TrimStart, IsWhitespace, Render, Meaning, Encode;
    var inner := Render(pieces) + ("\"" + remaining);
    QuotedRead(pieces, path, remaining);
    QuoteAfter(blank, inner);
  }

  lemma {:induction false} QuoteAfter(blank: string, inner: string)
    requires AllWhitespace(blank)
    ensures ParseDiffToken(blank + ("\"" + inner)) == QuotedToken(inner)
  {
    hide QuotedToken, TrimStart;
    var s := "\"" + inner;
    assert s[0] == '"' && s[1..] == inner;
    TrimStartOf(blank, s);
  }

  lemma {:induction false} QuotedRead(pieces: seq<Piece>, path: string, remaining: string)
    requires Valid(pieces) && Meaning(pieces) == Encode(path)
    ensures QuotedToken(Render(pieces) + ("\"" + remaining)) ==
            if remaining == [] || IsWhitespace(remaining[0]) then Some(Token(path, remaining)) else None
  {
    hide Unescape, Render, Meaning, Decode, Encode, IsWhitespace;
    var inner := Render(pieces) + ("\"" + remaining);
    UnescapeRendered(pieces, "\"" + remaining);
    DecodeOfEncoded(path);
    assert inner[|Render(pieces)| + 1..] == remaining;
  }

  /** Git's own choice: letters where there is one, octal for the other bytes that do not print. */
  function QuoteByte(b: byte): (p: Piece)
    ensures p.Valid() && p.Bytes() == [b]
  {
    match b
    case 0x07 => Letter('a')
    case 0x08 => Letter('b')
    case 0x09 => Letter('t')
    case 0x0A => Letter('n')
    case 0x0B => Letter('v')
    case 0x0C => Letter('f')
    case 0x0D => Letter('r')
    case 0x22 => Letter('"')
    case 0x5C => Letter('\\')
    case _ => if b < 0x20 || b >= 0x7F then Octal(b) else Plain(b as char)
  }

  function QuoteBytes(b: Bytes): (pieces: seq<Piece>)
    ensures Valid(pieces) && Meaning(pieces) == b
  {
    if b == [] then [] else
      var pieces := [QuoteByte(b[0])] + QuoteBytes(b[1..]);
      assert pieces[1..] == QuoteBytes(b[1..]);
      pieces
  }

  /** A path as git quotes it. */
  function Quoted(path: string): string {
    "\"" + (Render(QuoteBytes(Encode(path))) + "\"")
  }

  /** Git's C-style quoting of any path is undone by the token parser. */
  lemma {:induction false} GitQuotingRoundTrip(blank: string, path: string, remaining: string)
    requires AllWhitespace(blank) && (remaining == [] || IsWhitespace(remaining[0]))
    ensures ParseDiffToken(blank + (Quoted(path) + remaining)) == Some(Token(path, remaining))
  {
    hide ParseDiffToken, Render, QuoteBytes;
    var inner := Render(QuoteBytes(Encode(path)));
    QuotedTokenRoundTrip(blank, QuoteBytes(Encode(path)), path, remaining);
    assert ("\"" + (inner + "\"")) + remaining == "\"" + (inner + ("\"" + remaining));
  }

  /** A quoted path fits on a line, whatever characters the path holds. */
  lemma {:induction false} QuotedIsPrintable(path: string)
    ensures forall i :: 0 <= i < |Quoted(path)| ==> ' ' <= Quoted(path)[i] <= '~'
  {
    hide Render, QuoteBytes;
    RenderedPrintable(Encode(path));
  }

  lemma {:induction false} RenderedPrintable(b: Bytes)
    ensures forall i :: 0 <= i < |Render(QuoteBytes(b))| ==> ' ' <= Render(QuoteBytes(b))[i] <= '~'
  {
    if b != [] {
      RenderedPrintable(b[1..]);
      PiecePrintable(b[0]);
      assert QuoteBytes(b)[1..] == QuoteBytes(b[1..]);
    }
  }

  lemma PiecePrintable(b: byte)
    ensures forall i :: 0 <= i < |QuoteByte(b).Text()| ==> ' ' <= QuoteByte(b).Text()[i] <= '~'
  {
  }
}
