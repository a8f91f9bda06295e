/** What the anonymizer puts in place of comments, strings and numbers that are not to be shown. */
module Redaction {
  import opened Text
  import opened Whitespace
  import opened Utf8
  import opened Decimals

  datatype Options = Options(
    anonymizeIdentifiers: bool,
    redactSensitiveStrings: bool,
    redactNumericLiterals: bool,
    stripComments: bool)

  // ----- comments

  const RANGE_START := "__NOVA_AI_RANGE_START__"

  const RANGE_END := "__NOVA_AI_RANGE_END__"

  const MAX_MARKER_LEN: nat := 64

  /** A line comment keeps nothing but its line end. */
  function RedactedLine(token: string): string {
    "// [REDACTED]" + if EndsLine(token) then "\n" else ""
  }

  /** Characters in front of the comment end. */
  function BodyLen(r: string): (n: nat)
    ensures n <= |r|
  {
    if r == [] || (r[0] == '*' && |r| > 1 && r[1] == '/') then 0 else 1 + BodyLen(r[1..])
  }

  /** The buffer takes one more character as long as it holds fewer than the maximum of bytes. */
  predicate FitsBuffer(body: string) {
    body == [] || |Encode(body[..|body| - 1])| < MAX_MARKER_LEN
  }

  /** A closed block comment that holds one of the two range markers and blanks. */
  predicate IsRangeMarker(token: string)
    requires |token| >= 2
  {
    var n := BodyLen(token[2..]);
    var body := token[2..][..n];
    n < |token| - 2 && FitsBuffer(body) && (Trim(body) == RANGE_START || Trim(body) == RANGE_END)
  }

  function RedactedBlock(token: string): string
    requires |token| >= 2
  {
    if IsRangeMarker(token) then "/*" + Trim(token[2..][..BodyLen(token[2..])]) + "*/" else "/* [REDACTED] */"
  }

  // ----- strings

  /** The characters of a string literal behind its opening quote, without the backslashes of escapes. */
  function LiteralBody(r: string): string
    decreases |r|
  {
    if r == [] || r[0] == '"' then ""
    else if r[0] == '\\' then (if |r| == 1 then "" else [r[1]] + LiteralBody(r[2..]))
    else [r[0]] + LiteralBody(r[1..])
  }

  predicate ContainsText(s: string, pattern: string) {
    pattern <= s || (s != [] && ContainsText(s[1..], pattern))
  }

  function LowerText(s: string): (r: string)
    ensures |r| == |s|
  {
    seq(|s|, i requires 0 <= i < |s| => LowerAscii(s[i]))
  }

  predicate IsTokenChar(c: char) {
    IsDigit(c) || 'a' <= c <= 'z' || 'A' <= c <= 'Z' || c in {'_', '-', '=', '+', '/', '.'}
  }

  function TokenChars(s: string): nat {
    if s == [] then 0 else (if IsTokenChar(s[0]) then 1 else 0) + TokenChars(s[1..])
  }

  const TELLTALES := ["password", "passwd", "secret", "token", "api_key", "apikey", "auth"]

  /** `looks_sensitive`. */
  predicate LooksSensitive(literal: string) {
    var s := Trim(literal);
    && s != []
    && (|| (exists i :: 0 <= i < |TELLTALES| && ContainsText(LowerText(s), TELLTALES[i]))
        || ("sk-" <= s && |Encode(s)| >= 20)
        || ("AKIA" <= s && |Encode(s)| >= 16)
        || ContainsText(s, "-----BEGIN")
        || (|Encode(s)| >= 32 && TokenChars(s) * 100 / |s| >= 95))
  }

  predicate IsSensitive(token: string) {
    token != [] && LooksSensitive(LiteralBody(token[1..]))
  }

  const REDACTED_STRING := "\"[REDACTED]\""

  // ----- numbers

  predicate IsHexDigit(c: char) { IsDigit(c) || 'a' <= c <= 'f' || 'A' <= c <= 'F' }

  /** Digits and underscores, hexadecimal or decimal. */
  function DigitTail(r: string, hex: bool): (n: nat)
    ensures n <= |r|
    ensures forall i :: 0 <= i < n ==> r[i] == '_' || IsHexDigit(r[i])
  {
    if r != [] && (r[0] == '_' || (if hex then IsHexDigit(r[0]) else IsDigit(r[0]))) then 1 + DigitTail(r[1..], hex)
    else 0
  }

  function CountDigits(s: string): nat {
    if s == [] then 0 else (if s[0] == '_' then 0 else 1) + CountDigits(s[1..])
  }

  /** A numeric literal taken apart: what it starts with, its digits and underscores, and its suffix. */
  datatype Literal = Literal(hex: bool, digits: string, suffix: string)

  function NumberParts(token: string): Literal
    requires token != []
  {
    var hex := token[0] == '0' && |token| > 1 && (token[1] == 'x' || token[1] == 'X');
    var r := if hex then token[2..] else token;
    var n := DigitTail(r, hex);
    Literal(hex, r[..n], r[n..])
  }

  predicate IsLong(token: string) {
    token != [] && CountDigits(NumberParts(token).digits) >= 16
  }

  function RedactedNumber(token: string): string
    requires IsLong(token)
  {
    (if NumberParts(token).hex then "0xREDACTED" else "0") + NumberParts(token).suffix
  }
}
