/**
 What the anonymizer does to code that is written piece by piece: identifiers, comments, literals and
 symbols. This says what its tokens are without its lexer.
 */
module CodePieces {
  import opened Text
  import opened Whitespace
  import opened Utf8
  import opened Decimals
  import opened ReservedWords
  import opened Redaction
  import opened Anonymizer

  /** A numeral is given by its start, its digits with underscores, and its suffix. */
  datatype Piece =
    | Word(name: string)
    | LineNote(body: string)
    | BlockNote(body: string)
    | Quote(body: string)
    | Apostrophe(body: string)
    | Numeral(start: string, digits: string, suffix: string)
    | Symbol(c: char)

  function Source(p: Piece): string {
    match p
    case Word(name) => name
    case LineNote(body) => "//" + (body + "\n")
    case BlockNote(body) => "/*" + (body + "*/")
    case Quote(body) => "\"" + (body + "\"")
    case Apostrophe(body) => "'" + (body + "'")
    case Numeral(start, digits, suffix) => start + (digits + suffix)
    case Symbol(c) => [c]
  }

  // ----- well-formed pieces

  predicate IsIdentifier(u: Unicode, w: string) {
    w != [] && u.IdentStart(w[0]) && forall i :: 0 <= i < |w| ==> u.IdentContinue(w[i])
  }

  /** Every backslash is followed by the character it escapes, and no other quote stands inside. */
  predicate IsQuotable(body: string, quote: char)
    decreases |body|
  {
    || body == []
    || (body[0] == '\\' && |body| > 1 && IsQuotable(body[2..], quote))
    || (body[0] != '\\' && body[0] != quote && IsQuotable(body[1..], quote))
  }

  predicate NoCommentEnd(body: string) {
    forall i :: 0 <= i < |body| - 1 ==> !(body[i] == '*' && body[i + 1] == '/')
  }

  predicate AllNumeric(digits: string, hex: bool) {
    forall i :: 0 <= i < |digits| ==> digits[i] == '_' || (if hex then IsHexDigit(digits[i]) else IsDigit(digits[i]))
  }

  predicate IsNumeralPiece(start: string, digits: string, suffix: string) {
    && (if start == "" then digits != [] && IsDigit(digits[0]) && AllNumeric(digits, false)
        else (start == "0x" || start == "0X") && AllNumeric(digits, true))
    && (suffix == "" || suffix == "l" || suffix == "L"
        || (start == "" && (suffix == "f" || suffix == "F" || suffix == "d" || suffix == "D")))
  }

  predicate PieceOk(u: Unicode, p: Piece) {
    match p
    case Word(name) => IsIdentifier(u, name)
    case LineNote(body) => '\n' !in body
    case BlockNote(body) => NoCommentEnd(body)
    case Quote(body) => IsQuotable(body, '"')
    case Apostrophe(body) => IsQuotable(body, '\'')
    case Numeral(start, digits, suffix) => IsNumeralPiece(start, digits, suffix)
    case Symbol(c) => c != '"' && c != '\'' && !u.IdentStart(c) && !IsDigit(c)
  }

  /** What may follow a piece without becoming part of it. */
  predicate Ends(u: Unicode, p: Piece, next: string) {
    next == [] ||
    match p
    case Word(_) => !u.IdentContinue(next[0])
    case Numeral(start, digits, suffix) =>
      suffix == "" ==>
        && next[0] != '_' && !IsNumberSuffix(next[0])
        && (if start == "" then !IsDigit(next[0]) && (digits == "0" ==> next[0] != 'x' && next[0] != 'X')
            else !IsHexDigit(next[0]))
    case Symbol(c) => c == '/' ==> next[0] != '/' && next[0] != '*'
    case _ => true
  }

  function Code(pieces: seq<Piece>): string {
    if pieces == [] then "" else Source(pieces[0]) + Code(pieces[1..])
  }

  predicate WellWritten(u: Unicode, pieces: seq<Piece>) {
    pieces == [] || (PieceOk(u, pieces[0]) && Ends(u, pieces[0], Code(pieces[1..])) && WellWritten(u, pieces[1..]))
  }

  // ----- pieces are tokens

  function KindOfPiece(p: Piece): Kind {
    match p
    case Word(_) => Ident
    case LineNote(_) => LineComment
    case BlockNote(_) => BlockComment
    case Quote(_) => StringLit
    case Apostrophe(_) => CharLit
    case Numeral(_, _, _) => Number
    case Symbol(_) => Plain
  }

  lemma {:induction false} LineTailOf(body: string, rest: string)
    requires '\n' !in body
    ensures LineTail(body + ("\n" + rest)) == |body| + 1
  {
    var s := body + ("\n" + rest);
    if body != [] {
      assert s[1..] == body[1..] + ("\n" + rest);
      LineTailOf(body[1..], rest);
    }
  }

  lemma {:induction false} BlockTailOf(body: string, rest: string)
    requires NoCommentEnd(body)
    ensures BlockTail(body + ("*/" + rest)) == |body| + 2
    ensures BodyLen(body + ("*/" + rest)) == |body|
  {
    var s := body + ("*/" + rest);
    if body == [] {
      assert s[0] == '*' && s[1] == '/';
    } else {
      assert s[1..] == body[1..] + ("*/" + rest) && s[0] == body[0];
      if |body| > 1 { assert s[1] == body[1]; } else { assert s[1] == '*'; }
      BlockTailOf(body[1..], rest);
    }
  }

  lemma {:induction false} QuoteTailOf(body: string, quote: char, rest: string)
    requires IsQuotable(body, quote) && quote != '\\'
    ensures QuoteTail(body + ([quote] + rest), quote) == |body| + 1
    decreases |body|
  {
    var s := body + ([quote] + rest);
    if body == [] {
      assert s[0] == quote;
    } else if body[0] == '\\' {
      assert s[0] == '\\' && s[2..] == body[2..] + ([quote] + rest);
      QuoteTailOf(body[2..], quote, rest);
    } else {
      assert s[0] == body[0] && s[1..] == body[1..] + ([quote] + rest);
      QuoteTailOf(body[1..], quote, rest);
    }
  }

  lemma {:induction false} IdentTailOf(u: Unicode, w: string, rest: string)
    requires (forall i :: 0 <= i < |w| ==> u.IdentContinue(w[i])) && (rest == [] || !u.IdentContinue(rest[0]))
    ensures IdentTail(u, w + rest) == |w|
  {
    if w == [] {
      assert w + rest == rest;
    } else {
      assert (w + rest)[1..] == w[1..] + rest && (w + rest)[0] == w[0];
      IdentTailOf(u, w[1..], rest);
    }
  }

  lemma {:induction false} DigitTailOf(digits: string, hex: bool, rest: string)
    requires AllNumeric(digits, hex)
    requires rest == [] || !(rest[0] == '_' || (if hex then IsHexDigit(rest[0]) else IsDigit(rest[0])))
    ensures DigitTail(digits + rest, hex) == |digits|
  {
    if digits == [] {
      assert digits + rest == rest;
    } else {
      assert (digits + rest)[1..] == digits[1..] + rest && (digits + rest)[0] == digits[0];
      DigitTailOf(digits[1..], hex, rest);
    }
  }

  lemma WordLexes(u: Unicode, name: string, rest: string)
    requires IsIdentifier(u, name) && (rest == [] || !u.IdentContinue(rest[0]))
    ensures KindOf(u, name + rest) == Ident && TokenLen(u, name + rest) == |name|
  {
    hide IdentTail;
    var s := name + rest;
    assert s[0] == name[0] && s[1..] == name[1..] + rest;
    StartIsNoMark(u, name[0]);
    IdentTailOf(u, name[1..], rest);
  }

  lemma StartIsNoMark(u: Unicode, c: char)
    requires u.IdentStart(c)
    ensures c != '/' && c != '"' && c != '\''
  {
  }

  lemma CommentLexes(u: Unicode, body: string, rest: string)
    ensures '\n' !in body ==>
              var s := "//" + (body + "\n") + rest; KindOf(u, s) == LineComment && TokenLen(u, s) == |body| + 3
    ensures NoCommentEnd(body) ==>
              var s := "/*" + (body + "*/") + rest; KindOf(u, s) == BlockComment && TokenLen(u, s) == |body| + 4
  {
    hide LineTail, BlockTail;
    var s, t := "//" + (body + "\n") + rest, "/*" + (body + "*/") + rest;
    assert s[0] == '/' && s[1] == '/' && s[2..] == body + ("\n" + rest);
    assert t[0] == '/' && t[1] == '*' && t[2..] == body + ("*/" + rest);
    if '\n' !in body { LineTailOf(body, rest); }
    if NoCommentEnd(body) { BlockTailOf(body, rest); }
  }

  lemma {:induction false} QuoteLexes(u: Unicode, body: string, rest: string)
    ensures IsQuotable(body, '"') ==>
              var s := "\"" + (body + "\"") + rest; KindOf(u, s) == StringLit && TokenLen(u, s) == |body| + 2
    ensures IsQuotable(body, '\'') ==>
              var s := "'" + (body + "'") + rest; KindOf(u, s) == CharLit && TokenLen(u, s) == |body| + 2
  {
    hide QuoteTail, IsQuotable;
    var s, t := "\"" + (body + "\"") + rest, "'" + (body + "'") + rest;
    assert s[0] == '"' && s[1..] == body + (['"'] + rest);
    assert t[0] == '\'' && t[1..] == body + (['\''] + rest);
    if IsQuotable(body, '"') { QuoteTailOf(body, '"', rest); }
    if IsQuotable(body, '\'') { QuoteTailOf(body, '\'', rest); }
  }

  lemma {:induction false} NumeralLexes(u: Unicode, p: Piece, rest: string)
    requires p.Numeral? && PieceOk(u, p) && Ends(u, p, rest)
    ensures KindOf(u, Source(p) + rest) == Number && TokenLen(u, Source(p) + rest) == |Source(p)|
  {
    hide NumberTail, AllNumeric;
    var s := Source(p) + rest;
    Regroup(p.start, p.digits, p.suffix, rest);
    assert s[0] == if p.start == "" then p.digits[0] else '0';
    DigitIsNoStart(u, s[0]);
    if p.start == "" { DecimalLexes(p.digits, p.suffix, rest); } else { HexNumber(p.start, p.digits, p.suffix, rest); }
    hide IsNumeralPiece, Ends;
  }

  lemma Regroup(a: string, b: string, c: string, d: string)
    ensures (a + (b + c)) + d == a + (b + (c + d))
    ensures a == "" ==> (a + (b + c)) + d == b + (c + d)
  {
    assert a == "" ==> (a + (b + c)) + d == b + (c + d);
  }

  lemma {:induction false} HexNumber(start: string, digits: string, suffix: string, rest: string)
    requires (start == "0x" || start == "0X") && AllNumeric(digits, true) && suffix in {"", "l", "L"}
    requires rest == [] || suffix != "" || (rest[0] != '_' && !IsNumberSuffix(rest[0]) && !IsHexDigit(rest[0]))
    ensures var s := start + (digits + (suffix + rest)); NumberTail(s[0], s[1..]) == 1 + |digits| + |suffix|
  {
    hide DigitTail, AllNumeric;
    var tail := suffix + rest;
    var s := start + (digits + tail);
    HexLexes(digits, suffix, rest);
    var r := s[1..];
    assert s[0] == '0' && r[0] == start[1];
    assert r[1..] == digits + tail;
    assert r[1 + |digits|..] == tail;
  }

  lemma DigitIsNoStart(u: Unicode, c: char)
    requires IsDigit(c)
    ensures !u.IdentStart(c) && c != '/' && c != '"' && c != '\''
  {
  }

  lemma {:induction false} HexLexes(digits: string, suffix: string, rest: string)
    requires AllNumeric(digits, true) && suffix in {"", "l", "L"}
    requires rest == [] || suffix != "" || (rest[0] != '_' && !IsNumberSuffix(rest[0]) && !IsHexDigit(rest[0]))
    ensures DigitTail(digits + (suffix + rest), true) == |digits| && SuffixTail(suffix + rest) == |suffix|
  {
    hide DigitTail;
    DigitTailOf(digits, true, suffix + rest);
  }

  lemma SuffixOf(suffix: string, rest: string)
    requires suffix in {"", "l", "L", "f", "F", "d", "D"} && (rest == [] || suffix != "" || !IsNumberSuffix(rest[0]))
    ensures SuffixTail(suffix + rest) == |suffix|
    ensures suffix != "" ==> IsNumberSuffix((suffix + rest)[0]) && !IsDigit((suffix + rest)[0])
    ensures suffix == "" ==> suffix + rest == rest
  {
  }

  lemma {:induction false} DecimalLexes(digits: string, suffix: string, rest: string)
    requires digits != [] && IsDigit(digits[0]) && AllNumeric(digits, false)
    requires suffix in {"", "l", "L", "f", "F", "d", "D"}
    requires rest == [] || suffix != "" ||
             (rest[0] != '_' && !IsNumberSuffix(rest[0]) && !IsDigit(rest[0])
              && (digits == "0" ==> rest[0] != 'x' && rest[0] != 'X'))
    ensures var s := digits + (suffix + rest); NumberTail(s[0], s[1..]) == |digits| - 1 + |suffix|
  {
    hide DigitTail, AllNumeric, SuffixTail, NumberTail;
    SuffixOf(suffix, rest);
    var tail := suffix + rest;
    TailNumeric(digits);
    DigitTailOf(digits[1..], false, tail);
    NotHex(digits, tail);
    DecimalTail(digits[0], digits[1..], tail);
    Behind(digits, tail);
  }

  lemma Behind(digits: string, tail: string)
    requires digits != []
    ensures (digits + tail)[0] == digits[0] && (digits + tail)[1..] == digits[1..] + tail
  {
  }

  lemma {:induction false} DecimalTail(first: char, digits: string, tail: string)
    requires var r := digits + tail;
             && DigitTail(r, false) == |digits|
             && (first == '0' && r != [] ==> r[0] != 'x' && r[0] != 'X')
    ensures NumberTail(first, digits + tail) == |digits| + SuffixTail(tail)
  {
    hide DigitTail, SuffixTail;
    assert (digits + tail)[|digits|..] == tail;
  }

  lemma TailNumeric(digits: string)
    requires digits != [] && AllNumeric(digits, false)
    ensures AllNumeric(digits[1..], false)
  {
  }

  lemma NotHex(digits: string, tail: string)
    requires digits != [] && AllNumeric(digits, false)
    requires tail == [] || digits != "0" || (tail[0] != 'x' && tail[0] != 'X')
    ensures var r := digits[1..] + tail; digits[0] == '0' && r != [] ==> r[0] != 'x' && r[0] != 'X'
  {
    if |digits| == 1 { assert digits == [digits[0]]; }
  }

  lemma SymbolLexes(u: Unicode, c: char, rest: string)
    requires PieceOk(u, Symbol(c)) && Ends(u, Symbol(c), rest)
    ensures KindOf(u, [c] + rest) == Plain && TokenLen(u, [c] + rest) == 1
  {
    var s := [c] + rest;
    assert s[0] == c && (rest != [] ==> s[1] == rest[0]);
  }

  /** A well-formed piece is one token, of its kind. */
  lemma {:induction false} PieceLexes(u: Unicode, p: Piece, rest: string)
    requires PieceOk(u, p) && Ends(u, p, rest)
    ensures var s := Source(p) + rest;
            && s != [] && KindOf(u, s) == KindOfPiece(p) && TokenLen(u, s) == |Source(p)|
            && s[..|Source(p)|] == Source(p) && s[|Source(p)|..] == rest
  {
    hide KindOf, TokenLen, IsQuotable, IsNumeralPiece;
    match p
    case Word(name) => WordLexes(u, name, rest);
    case LineNote(body) => CommentLexes(u, body, rest);
    case BlockNote(body) => CommentLexes(u, body, rest);
    case Quote(body) => QuoteLexes(u, body, rest);
    case Apostrophe(body) => QuoteLexes(u, body, rest);
    case Numeral(_, _, _) => NumeralLexes(u, p, rest);
    case Symbol(c) => SymbolLexes(u, c, rest);
  }

  // ----- what becomes of a piece

  /** A block comment that is kept although comments are stripped. */
  predicate IsMarkerBody(body: string) {
    FitsBuffer(body) && (Trim(body) == "__NOVA_AI_RANGE_START__" || Trim(body) == "__NOVA_AI_RANGE_END__")
  }

  function Shown(o: Options, p: Piece, table: map<string, string>): string {
    match p
    case Word(name) => if o.anonymizeIdentifiers && !IsListed(name) && name in table then table[name] else name
    case LineNote(_) => if o.stripComments then "// [REDACTED]\n" else Source(p)
    case BlockNote(body) =>
      if !o.stripComments then Source(p)
      else if IsMarkerBody(body) then "/*" + Trim(body) + "*/"
      else "/* [REDACTED] */"
    case Quote(body) =>
      if o.redactSensitiveStrings && LooksSensitive(LiteralBody(body + "\"")) then "\"[REDACTED]\"" else Source(p)
    case Numeral(start, digits, suffix) =>
      if o.redactNumericLiterals && CountDigits(digits) >= 16 then (if start == "" then "0" else "0xREDACTED") + suffix
      else Source(p)
    case _ => Source(p)
  }

  function AllShown(o: Options, pieces: seq<Piece>, table: map<string, string>): string {
    if pieces == [] then "" else Shown(o, pieces[0], table) + AllShown(o, pieces[1..], table)
  }

  lemma BlockShown(body: string)
    requires NoCommentEnd(body)
    ensures var token := "/*" + (body + "*/");
            RedactedBlock(token) == if IsMarkerBody(body) then "/*" + Trim(body) + "*/" else "/* [REDACTED] */"
  {
    hide BodyLen, Trim, FitsBuffer;
    var token := "/*" + (body + "*/");
    BlockTailOf(body, "");
    assert token[2..] == body + ("*/" + "");
    assert token[2..][..|body|] == body;
  }

  lemma {:induction false} DecimalParts(digits: string, suffix: string)
    requires IsNumeralPiece("", digits, suffix)
    ensures NumberParts(digits + suffix) == Literal(false, digits, suffix)
  {
    hide DigitTail;
    var token := digits + suffix;
    DigitTailOf(digits, false, suffix);
    assert token[..|digits|] == digits && token[|digits|..] == suffix;
    assert token[0] == digits[0];
    if |digits| > 1 { assert token[1] == digits[1]; } else if suffix != "" { assert token[1] == suffix[0]; }
  }

  lemma {:induction false} HexParts(start: string, digits: string, suffix: string)
    requires start != "" && IsNumeralPiece(start, digits, suffix)
    ensures NumberParts(start + (digits + suffix)) == Literal(true, digits, suffix)
  {
    hide DigitTail;
    var token := start + (digits + suffix);
    DigitTailOf(digits, true, suffix);
    var r := token[2..];
    assert r == digits + suffix && r[..|digits|] == digits && r[|digits|..] == suffix;
    assert token[0] == '0' && token[1] == start[1];
  }

  lemma {:induction false} NumeralShown(p: Piece)
    requires p.Numeral? && IsNumeralPiece(p.start, p.digits, p.suffix)
    ensures IsLong(Source(p)) <==> CountDigits(p.digits) >= 16
    ensures IsLong(Source(p)) ==> RedactedNumber(Source(p)) == (if p.start == "" then "0" else "0xREDACTED") + p.suffix
  {
    hide CountDigits, NumberParts, AllNumeric;
    if p.start == "" {
      DecimalParts(p.digits, p.suffix);
      assert Source(p) == p.digits + p.suffix;
    } else {
      HexParts(p.start, p.digits, p.suffix);
    }
  }

  /** A token is shown as its piece is. */
  lemma {:induction false} PieceShown(o: Options, u: Unicode, p: Piece, rest: string, table: map<string, string>)
    requires PieceOk(u, p) && Ends(u, p, rest)
    ensures Source(p) + rest != [] && RenderedToken(o, u, Source(p) + rest, table) == Shown(o, p, table)
  {
    hide KindOf, TokenLen, IsQuotable, IsIdentifier, LooksSensitive, LiteralBody, IsLong, RedactedNumber, RedactedBlock;
    hide CountDigits, IsReserved, IsListed, Ends, NoCommentEnd, IsNumeralPiece, IsMarkerBody;
    PieceLexes(u, p, rest);
    match p
    case Word(name) => ReservedIffListed(name);
    case LineNote(body) => assert Source(p)[|Source(p)| - 1] == '\n';
    case BlockNote(body) => BlockShown(body);
    case Quote(body) => assert Source(p)[1..] == body + "\"";
    case Numeral(_, _, _) => NumeralShown(p);
    case _ =>
  }

  /** Code that is written piece by piece is anonymized piece by piece. */
  lemma {:induction false} PiecesShown(o: Options, u: Unicode, pieces: seq<Piece>, table: map<string, string>)
    requires WellWritten(u, pieces)
    ensures RenderWith(o, u, Code(pieces), table) == AllShown(o, pieces, table)
  {
    hide PieceOk, Ends, RenderedToken, Shown, TokenLen, Source;
    if pieces != [] {
      PieceLexes(u, pieces[0], Code(pieces[1..]));
      PieceShown(o, u, pieces[0], Code(pieces[1..]), table);
      PiecesShown(o, u, pieces[1..], table);
    }
  }

  // ----- secrets

  predicate IsTelltale(word: string) {
    word in {"password", "passwd", "secret", "token", "api_key", "apikey", "auth"}
  }

  /** The text holds the word, in whatever case. */
  predicate HoldsAt(s: string, word: string, i: nat) {
    i + |word| <= |s| && forall k :: 0 <= k < |word| ==> LowerAscii(s[i + k]) == word[k]
  }

  lemma {:induction false} ContainsAt(s: string, pattern: string, i: nat)
    requires i <= |s| && pattern <= s[i..]
    ensures ContainsText(s, pattern)
  {
    if i > 0 {
      assert s[1..][i - 1..] == s[i..];
      ContainsAt(s[1..], pattern, i - 1);
    }
  }

  lemma {:induction false} LowerHolds(s: string, word: string, i: nat)
    requires HoldsAt(s, word, i)
    ensures ContainsText(LowerText(s), word)
  {
    hide LowerAscii;
    var t := LowerText(s);
    assert t[i..i + |word|] == word;
    assert t[i..][..|word|] == t[i..i + |word|];
    ContainsAt(t, word, i);
  }

  predicate NoBlank(word: string) {
    forall k :: 0 <= k < |word| ==> 'a' <= word[k] <= 'z' || word[k] == '_'
  }

  lemma LetterNoBlank(c: char)
    requires 'a' <= LowerAscii(c) <= 'z' || LowerAscii(c) == '_'
    ensures !IsWhitespace(c)
  {
  }

  lemma NotSkipped(s: string, n: nat, i: nat)
    requires n <= |s| && AllWhitespace(s[..n]) && i < |s| && !IsWhitespace(s[i])
    ensures n <= i
  {
    hide IsWhitespace;
    assert forall k :: 0 <= k < n ==> s[..n][k] == s[k];
  }

  lemma NotCutOff(s: string, n: nat, i: nat)
    requires n <= |s| && AllWhitespace(s[n..]) && i < |s| && !IsWhitespace(s[i])
    ensures i < n
  {
    hide IsWhitespace;
    assert forall k :: n <= k < |s| ==> s[n..][k - n] == s[k];
  }

  lemma HeldChars(s: string, word: string, i: nat, k: nat)
    requires HoldsAt(s, word, i) && NoBlank(word) && k < |word|
    ensures !IsWhitespace(s[i + k])
  {
    hide IsWhitespace, LowerAscii;
    assert LowerAscii(s[i + k]) == word[k];
    LetterNoBlank(s[i + k]);
  }

  lemma HeldWithin(s: string, word: string, i: nat, a: nat, b: nat)
    requires HoldsAt(s, word, i) && a <= i && i + |word| <= b <= |s|
    ensures HoldsAt(s[a..b], word, i - a)
  {
    hide LowerAscii;
    forall k | 0 <= k < |word| ensures LowerAscii(s[a..b][i - a + k]) == word[k] {
      assert s[a..b][i - a + k] == s[i + k];
    }
  }

  /** Trimming does not cut into a word without blanks. */
  lemma {:induction false} TrimHolds(s: string, word: string, i: nat) returns (j: nat)
    requires HoldsAt(s, word, i) && word != [] && NoBlank(word)
    ensures HoldsAt(Trim(s), word, j)
  {
    hide TrimStart, TrimEnd, IsWhitespace, HoldsAt, NoBlank;
    HeldChars(s, word, i, 0);
    HoldsBound(s, word, i);
    var t := TrimStart(s);
    var n := |s| - |t|;
    NotSkipped(s, n, i);
    j := i - n;
    HeldWithin(s, word, i, n, |s|);
    assert s[n..|s|] == t;
    HeldChars(t, word, j, |word| - 1);
    var r := TrimEnd(t);
    NotCutOff(t, |r|, j + (|word| - 1));
    HeldWithin(t, word, j, 0, |r|);
    assert t[0..|r|] == r;
  }

  lemma HoldsBound(s: string, word: string, i: nat)
    requires HoldsAt(s, word, i)
    ensures i + |word| <= |s|
  {
  }

  lemma {:induction false} PlainLiteral(body: string)
    requires '\\' !in body && '"' !in body
    ensures LiteralBody(body + "\"") == body && IsQuotable(body, '"')
  {
    var s := body + "\"";
    if body != [] {
      assert s[0] == body[0] && s[1..] == body[1..] + "\"";
      PlainLiteral(body[1..]);
    }
  }

  /** A literal with a telltale word in it, in whatever case, does not show. */
  lemma {:induction false} TelltaleHidden(o: Options, body: string, word: string, i: nat, table: map<string, string>)
    requires o.redactSensitiveStrings && '\\' !in body && '"' !in body
    requires IsTelltale(word) && HoldsAt(body, word, i)
    ensures Shown(o, Quote(body), table) == "\"[REDACTED]\""
  {
    hide LowerText, ContainsText, Trim, LiteralBody, TokenChars;
    PlainLiteral(body);
    assert NoBlank(word);
    var j := TrimHolds(body, word, i);
    LowerHolds(Trim(body), word, j);
    hide LooksSensitive;
    Telling(body, word);
  }

  lemma {:induction false} Telling(literal: string, word: string)
    requires IsTelltale(word)
    requires Trim(literal) != [] && ContainsText(LowerText(Trim(literal)), word)
    ensures LooksSensitive(literal)
  {
    hide LowerText, ContainsText, Trim, TokenChars;
    TelltaleListed(word);
  }

  lemma TelltaleListed(word: string)
    requires IsTelltale(word)
    ensures exists i :: 0 <= i < |TELLTALES| && TELLTALES[i] == word
  {
    assert TELLTALES[0] == "password" && TELLTALES[1] == "passwd" && TELLTALES[2] == "secret";
    assert TELLTALES[3] == "token" && TELLTALES[4] == "api_key" && TELLTALES[5] == "apikey" && TELLTALES[6] == "auth";
  }

  // ----- which literals are hidden

  predicate IsKeyChar(c: char) {
    '0' <= c <= '9' || 'a' <= c <= 'z' || 'A' <= c <= 'Z' || c in "_-=+/."
  }

  function KeyPlaces(s: string): set<nat> {
    set i: nat | i < |s| && IsKeyChar(s[i])
  }

  lemma {:induction false} CountLast(s: string, c: char)
    ensures TokenChars(s + [c]) == TokenChars(s) + if IsTokenChar(c) then 1 else 0
  {
    if s == [] {
      assert s + [c] == [c] && TokenChars([c][1..]) == 0;
    } else {
      assert (s + [c])[1..] == s[1..] + [c];
      CountLast(s[1..], c);
    }
  }

  lemma {:induction false} KeyCount(s: string)
    ensures TokenChars(s) == |KeyPlaces(s)|
  {
    hide TokenChars, IsTokenChar;
    if s == [] {
      NoTokenChars();
      assert KeyPlaces(s) == {};
    } else {
      var t, c := s[..|s| - 1], s[|s| - 1];
      assert s == t + [c];
      KeyCount(t);
      CountLast(t, c);
      SameChars(c);
      assert KeyPlaces(s) == KeyPlaces(t) + if IsKeyChar(c) then {|t|} else {};
    }
  }

  lemma NoTokenChars()
    ensures TokenChars("") == 0
  {
  }

  lemma SameChars(c: char)
    ensures IsTokenChar(c) <==> IsKeyChar(c)
  {
  }

  lemma {:induction false} AsciiLength(s: string)
    requires forall i :: 0 <= i < |s| ==> s[i] as int < 0x80
    ensures |Encode(s)| == |s|
  {
    if s != [] { AsciiLength(s[1..]); }
  }

  /** The pattern stands somewhere in the text. */
  ghost predicate Holds(s: string, pattern: string) {
    exists i: nat :: i <= |s| && pattern <= s[i..]
  }

  lemma {:induction false} ContainsIff(s: string, pattern: string)
    ensures ContainsText(s, pattern) <==> Holds(s, pattern)
  {
    if Holds(s, pattern) {
      var i: nat :| i <= |s| && pattern <= s[i..];
      ContainsAt(s, pattern, i);
    }
    if ContainsText(s, pattern) {
      if pattern <= s {
        assert s[0..] == s;
      } else {
        ContainsIff(s[1..], pattern);
        var i: nat :| i <= |s[1..]| && pattern <= s[1..][i..];
        assert s[1..][i..] == s[i + 1..];
      }
    }
  }

  /** The word stands somewhere in the text, in whatever case. */
  ghost predicate Mentions(s: string, word: string) {
    exists i: nat :: HoldsAt(s, word, i)
  }

  lemma {:induction false} MentionsIff(s: string, word: string)
    ensures ContainsText(LowerText(s), word) <==> Mentions(s, word)
  {
    hide LowerAscii, ContainsText, LowerText;
    var t := LowerText(s);
    LowerAt(s);
    if Mentions(s, word) {
      var i: nat :| HoldsAt(s, word, i);
      LowerHolds(s, word, i);
    }
    ContainsIff(t, word);
    if Holds(t, word) {
      var i: nat :| i <= |t| && word <= t[i..];
      assert forall k :: 0 <= k < |word| ==> t[i..][k] == t[i + k];
      assert HoldsAt(s, word, i);
    }
  }

  lemma LowerAt(s: string)
    ensures |LowerText(s)| == |s| && forall i :: 0 <= i < |s| ==> LowerText(s)[i] == LowerAscii(s[i])
  {
    hide LowerAscii;
  }

  ghost predicate HoldsTelltale(body: string) {
    exists word :: IsTelltale(word) && Mentions(body, word)
  }

  /** A telltale word, the start of a key, a certificate, or a long text of which 95 percent could be a key. */
  ghost predicate LooksSecret(body: string) {
    || HoldsTelltale(body)
    || ("sk-" <= body && |body| >= 20)
    || ("AKIA" <= body && |body| >= 16)
    || Holds(body, "-----BEGIN")
    || (|body| >= 32 && 100 * |KeyPlaces(body)| >= 95 * |body|)
  }

  lemma {:induction false} TelltaleIff(body: string)
    ensures (exists i :: 0 <= i < |TELLTALES| && ContainsText(LowerText(body), TELLTALES[i])) <==> HoldsTelltale(body)
  {
    hide LowerText, ContainsText, Mentions;
    forall i | 0 <= i < |TELLTALES|
      ensures ContainsText(LowerText(body), TELLTALES[i]) <==> Mentions(body, TELLTALES[i])
    {
      MentionsIff(body, TELLTALES[i]);
    }
    if HoldsTelltale(body) {
      var word :| IsTelltale(word) && Mentions(body, word);
      TelltaleListed(word);
    }
    AllTelltales();
  }

  lemma AllTelltales()
    ensures forall i :: 0 <= i < |TELLTALES| ==> IsTelltale(TELLTALES[i])
  {
  }

  lemma AtMostTimes(x: nat, y: nat, n: nat)
    requires x <= y
    ensures x * n <= y * n
  {
  }

  lemma Percent(t: nat, n: nat)
    requires n > 0
    ensures t * 100 / n >= 95 <==> 100 * t >= 95 * n
  {
    var a := t * 100;
    var q, r := a / n, a % n;
    assert a == q * n + r;
    assert q * n + n == (q + 1) * n;
    if q >= 95 { AtMostTimes(95, q, n); } else { AtMostTimes(q + 1, 95, n); }
  }

  /** A literal is hidden exactly if it looks like a secret. */
  lemma {:induction false} LiteralHiddenIff(o: Options, body: string, table: map<string, string>)
    requires o.redactSensitiveStrings && '\\' !in body && '"' !in body
    requires body != [] && !IsWhitespace(body[0]) && !IsWhitespace(body[|body| - 1])
    requires forall i :: 0 <= i < |body| ==> body[i] as int < 0x80
    ensures Shown(o, Quote(body), table) == if LooksSecret(body) then "\"[REDACTED]\"" else Source(Quote(body))
  {
    hide LowerText, ContainsText, Trim, LiteralBody, TokenChars, HoldsTelltale, Holds, KeyPlaces, IsWhitespace;
    PlainLiteral(body);
    Untrimmed(body);
    TelltaleIff(body);
    AsciiLength(body);
    ContainsIff(body, "-----BEGIN");
    KeyCount(body);
    Percent(TokenChars(body), |body|);
  }

  // ----- numbers

  /** A number of at least sixteen digits does not show. */
  lemma {:induction false} LongNumberHidden(o: Options, digits: string, table: map<string, string>)
    requires o.redactNumericLiterals && AllDigits(digits) && |digits| >= 16
    ensures Shown(o, Numeral("", digits, ""), table) == "0"
  {
    AllCount(digits);
    hide CountDigits;
    assert "0" + "" == "0";
  }

  lemma {:induction false} AllCount(digits: string)
    requires AllDigits(digits)
    ensures CountDigits(digits) == |digits|
  {
    if digits != [] { AllCount(digits[1..]); }
  }

  // ----- names are forgotten

  /** The names that are given out for these pieces. */
  function NamesOf(pieces: seq<Piece>, names: Names): Names {
    if pieces == [] then names
    else
      var p := pieces[0];
      NamesOf(pieces[1..], if p.Word? && !IsListed(p.name) then Intern(names, p.name) else names)
  }

  lemma {:induction false} NamesOfCode(u: Unicode, pieces: seq<Piece>, names: Names)
    requires WellWritten(u, pieces)
    ensures NamesAfter(u, Code(pieces), names) == NamesOf(pieces, names)
  {
    hide PieceOk, Ends, TokenLen, KindOf, IsListed, IsReserved;
    if pieces != [] {
      var p, rest := pieces[0], Code(pieces[1..]);
      PieceLexes(u, p, rest);
      if p.Word? { ReservedIffListed(p.name); }
      NamesOfCode(u, pieces[1..], if p.Word? && !IsListed(p.name) then Intern(names, p.name) else names);
    }
  }

  /** The piece is an identifier that is given a name. */
  predicate Renames(p: Piece) {
    p.Word? && !IsListed(p.name)
  }

  function Relabel(pieces: seq<Piece>, rename: string -> string): seq<Piece> {
    if pieces == [] then []
    else [if Renames(pieces[0]) then Word(rename(pieces[0].name)) else pieces[0]] + Relabel(pieces[1..], rename)
  }

  /** No two of the identifiers get the same label, and no label is reserved. */
  ghost predicate IsRelabelling(names: set<string>, rename: string -> string) {
    && (forall w :: w in names ==> !IsListed(rename(w)))
    && forall v, w :: v in names && w in names && rename(v) == rename(w) ==> v == w
  }

  ghost function Identifiers(pieces: seq<Piece>): set<string> {
    set p | p in pieces && Renames(p) :: p.name
  }

  /** The same names have been given out, up to the labels. */
  ghost predicate SameNames(n: Names, m: Names, names: set<string>, rename: string -> string) {
    && n.next == m.next
    && forall w :: w in names ==>
         (w in n.table <==> rename(w) in m.table) && (w in n.table ==> m.table[rename(w)] == n.table[w])
  }

  lemma InternSame(n: Names, m: Names, w: string, names: set<string>, rename: string -> string)
    requires SameNames(n, m, names, rename) && IsRelabelling(names, rename) && w in names
    ensures SameNames(Intern(n, w), Intern(m, rename(w)), names, rename)
  {
    hide Placeholder;
  }

  lemma {:induction false} RelabelledNames(
    pieces: seq<Piece>, n: Names, m: Names, names: set<string>, rename: string -> string)
    requires SameNames(n, m, names, rename) && IsRelabelling(names, rename) && Identifiers(pieces) <= names
    ensures SameNames(NamesOf(pieces, n), NamesOf(Relabel(pieces, rename), m), names, rename)
  {
    hide SameNames, IsListed, Intern;
    if pieces != [] {
      var p := pieces[0];
      assert p in pieces;
      assert Identifiers(pieces[1..]) <= Identifiers(pieces);
      if Renames(p) {
        assert p.name in Identifiers(pieces);
        InternSame(n, m, p.name, names, rename);
        RelabelledNames(pieces[1..], Intern(n, p.name), Intern(m, rename(p.name)), names, rename);
      } else {
        RelabelledNames(pieces[1..], n, m, names, rename);
      }
      assert Relabel(pieces, rename)[1..] == Relabel(pieces[1..], rename);
    }
  }

  lemma {:induction false} RelabelledShown(o: Options, pieces: seq<Piece>, n: Names, m: Names, names: set<string>,
      rename: string -> string)
    requires o.anonymizeIdentifiers && SameNames(n, m, names, rename) && IsRelabelling(names, rename)
    requires Identifiers(pieces) <= names && names <= n.table.Keys
    ensures AllShown(o, Relabel(pieces, rename), m.table) == AllShown(o, pieces, n.table)
  {
    hide IsListed;
    if pieces != [] {
      var p := pieces[0];
      assert p in pieces;
      assert Identifiers(pieces[1..]) <= Identifiers(pieces);
      if Renames(p) { assert p.name in Identifiers(pieces); }
      OtherTable(o, p, n.table, m.table);
      RelabelledShown(o, pieces[1..], n, m, names, rename);
      assert Relabel(pieces, rename)[1..] == Relabel(pieces[1..], rename);
    }
  }

  lemma OtherTable(o: Options, p: Piece, table: map<string, string>, other: map<string, string>)
    ensures !Renames(p) ==> Shown(o, p, table) == Shown(o, p, other)
  {
    hide IsListed, IsMarkerBody, LooksSensitive, LiteralBody, CountDigits;
  }

  lemma {:induction false} AllGiven(pieces: seq<Piece>, n: Names)
    ensures n.table.Keys <= NamesOf(pieces, n).table.Keys
    ensures Identifiers(pieces) <= NamesOf(pieces, n).table.Keys
  {
    hide IsListed;
    if pieces != [] {
      var p := pieces[0];
      var next := if Renames(p) then Intern(n, p.name) else n;
      AllGiven(pieces[1..], next);
      forall w | w in Identifiers(pieces) ensures w in NamesOf(pieces, n).table {
        var q :| q in pieces && Renames(q) && q.name == w;
        if q in pieces[1..] { assert w in Identifiers(pieces[1..]); } else { assert q == p; }
      }
    }
  }

  /** What identifiers are called does not show: relabelled code is anonymized to the same text. */
  lemma {:induction false} LabelsForgotten(o: Options, u: Unicode, pieces: seq<Piece>, rename: string -> string)
    requires o.anonymizeIdentifiers && WellWritten(u, pieces) && WellWritten(u, Relabel(pieces, rename))
    requires IsRelabelling(Identifiers(pieces), rename)
    ensures var code, relabelled, none := Code(pieces), Code(Relabel(pieces, rename)), Names(map[], 0);
            RenderWith(o, u, relabelled, NamesAfter(u, relabelled, none).table)
            == RenderWith(o, u, code, NamesAfter(u, code, none).table)
  {
    hide RenderWith, NamesAfter, WellWritten, Relabel, IsRelabelling, NamesOf, AllShown, Identifiers;
    var none, names, other := Names(map[], 0), Identifiers(pieces), Relabel(pieces, rename);
    NamesOfCode(u, pieces, none);
    NamesOfCode(u, other, none);
    var n, m := NamesOf(pieces, none), NamesOf(other, none);
    PiecesShown(o, u, pieces, n.table);
    PiecesShown(o, u, other, m.table);
    RelabelledNames(pieces, none, none, names, rename);
    AllGiven(pieces, none);
    RelabelledShown(o, pieces, n, m, names, rename);
  }
}
