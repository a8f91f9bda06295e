/**
 The anonymizer and the inverse of its identifier renaming: two separately written lexers for Java-like
 code.
 */
module Anonymizer {
  import opened Decimals
  import opened ReservedWords
  import opened Text
  import opened Redaction

  // ----- characters

  predicate IsAscii(c: char) { c <= '\U{7F}' }

  /** `is_ident_start_ascii_byte`. */
  predicate AsciiStart(c: char) { c == '_' || c == '$' || IsAsciiAlpha(c) }

  /** `is_ident_continue_ascii_byte`. */
  predicate AsciiContinue(c: char) { AsciiStart(c) || IsDigit(c) }

  predicate IsNumberSuffix(c: char) { c in {'l', 'L', 'f', 'F', 'd', 'D'} }

  /** The Unicode tables outside ASCII; every start character is also a continue character. */
  datatype Unicode = Unicode(xidStart: char -> bool, xidContinue: char -> bool) {
    predicate IdentStart(c: char) { if IsAscii(c) then AsciiStart(c) else xidStart(c) }

    predicate IdentContinue(c: char) { if IsAscii(c) then AsciiContinue(c) else xidContinue(c) || xidStart(c) }
  }

  // ----- the anonymizer's tokens

  datatype Kind = LineComment | BlockComment | StringLit | CharLit | Ident | Number | Plain

  function KindOf(u: Unicode, s: string): Kind
    requires s != []
  {
    if s[0] == '/' && |s| > 1 && s[1] == '/' then LineComment
    else if s[0] == '/' && |s| > 1 && s[1] == '*' then BlockComment
    else if s[0] == '"' then StringLit
    else if s[0] == '\'' then CharLit
    else if u.IdentStart(s[0]) then Ident
    else if IsDigit(s[0]) then Number
    else Plain
  }

  /** Characters up to and including the newline. */
  function LineTail(r: string): (n: nat)
    ensures n <= |r| && (n < |r| ==> n > 0 && r[n - 1] == '\n')
  {
    if r == [] then 0 else if r[0] == '\n' then 1 else 1 + LineTail(r[1..])
  }

  /** Characters up to and including the comment end. */
  function BlockTail(r: string): (n: nat)
    ensures n <= |r| && (n < |r| ==> n > 0 && r[n - 1] == '/')
  {
    if r == [] then 0 else if r[0] == '*' && |r| > 1 && r[1] == '/' then 2 else 1 + BlockTail(r[1..])
  }

  /** Characters up to and including the closing quote, honouring backslash escapes. */
  function QuoteTail(r: string, quote: char): (n: nat)
    ensures n <= |r| && (n < |r| ==> n > 0 && r[n - 1] == quote)
  {
    if r == [] then 0
    else if r[0] == '\\' then (if |r| == 1 then 1 else 2 + QuoteTail(r[2..], quote))
    else if r[0] == quote then 1
    else 1 + QuoteTail(r[1..], quote)
  }

  function IdentTail(u: Unicode, r: string): (n: nat)
    ensures n <= |r|
    ensures forall i :: 0 <= i < n ==> u.IdentContinue(r[i])
    ensures n < |r| ==> !u.IdentContinue(r[n])
  {
    if r != [] && u.IdentContinue(r[0]) then 1 + IdentTail(u, r[1..]) else 0
  }

  function SuffixTail(r: string): nat { if r != [] && IsNumberSuffix(r[0]) then 1 else 0 }

  /** After the first digit: the rest of a numeric literal. */
  function NumberTail(first: char, r: string): (n: nat)
    ensures n <= |r|
  {
    if first == '0' && r != [] && (r[0] == 'x' || r[0] == 'X') then
      var n := 1 + DigitTail(r[1..], true);
      n + SuffixTail(r[n..])
    else
      var n := DigitTail(r, false);
      n + SuffixTail(r[n..])
  }

  function TokenLen(u: Unicode, s: string): (n: nat)
    requires s != []
    ensures 1 <= n <= |s|
  {
    match KindOf(u, s)
    case LineComment => 2 + LineTail(s[2..])
    case BlockComment => 2 + BlockTail(s[2..])
    case StringLit => 1 + QuoteTail(s[1..], '"')
    case CharLit => 1 + QuoteTail(s[1..], '\'')
    case Ident => 1 + IdentTail(u, s[1..])
    case Number => 1 + NumberTail(s[0], s[1..])
    case Plain => 1
  }

  // ----- the name table

  function Placeholder(n: nat): string { "id_" + Decimal(n) }

  datatype Names = Names(table: map<string, string>, next: nat)

  /** Every name is a placeholder below the counter, and no two identifiers share one. */
  ghost predicate ValidNames(n: Names) {
    && (forall k :: k in n.table ==> exists i: nat :: i < n.next && n.table[k] == Placeholder(i))
    && (forall j, k :: j in n.table && k in n.table && n.table[j] == n.table[k] ==> j == k)
  }

  function Intern(n: Names, ident: string): Names {
    if ident in n.table then n else Names(n.table[ident := Placeholder(n.next)], n.next + 1)
  }

  lemma PlaceholderInjective(m: nat, n: nat)
    requires Placeholder(m) == Placeholder(n)
    ensures m == n
  {
    assert Placeholder(m)[3..] == Decimal(m) && Placeholder(n)[3..] == Decimal(n);
    DecimalInjective(m, n);
  }

  lemma InternValid(n: Names, ident: string)
    requires ValidNames(n)
    ensures ValidNames(Intern(n, ident))
  {
    var t := Intern(n, ident);
    forall k | k in t.table ensures exists i: nat :: i < t.next && t.table[k] == Placeholder(i) {
      if k in n.table {
        var i: nat :| i < n.next && n.table[k] == Placeholder(i);
      } else {
        assert t.table[k] == Placeholder(n.next);
      }
    }
    forall j, k | j in t.table && k in t.table && t.table[j] == t.table[k] ensures j == k {
      if ident !in n.table && j != k && (j == ident || k == ident) {
        var other := if j == ident then k else j;
        var i: nat :| i < n.next && n.table[other] == Placeholder(i);
        PlaceholderInjective(i, n.next);
      }
    }
  }

  // ----- what anonymization produces

  /** The identifier tokens that get a placeholder. */
  predicate Renamed(u: Unicode, s: string)
    requires s != []
  {
    KindOf(u, s) == Ident && !IsReserved(s[..TokenLen(u, s)])
  }

  /** The name table after the whole text. */
  function NamesAfter(u: Unicode, s: string, names: Names): Names
    decreases |s|
  {
    if s == [] then names
    else NamesAfter(u, s[TokenLen(u, s)..], if Renamed(u, s) then Intern(names, s[..TokenLen(u, s)]) else names)
  }

  /** The text with every renamable identifier replaced according to `table`. */
  function Render(u: Unicode, s: string, table: map<string, string>): string
    decreases |s|
  {
    if s == [] then []
    else
      var token := s[..TokenLen(u, s)];
      (if Renamed(u, s) && token in table then table[token] else token) + Render(u, s[TokenLen(u, s)..], table)
  }

  // ----- what the options hide

  /** What a token that is not an identifier becomes. */
  function Redacted(o: Options, kind: Kind, token: string): string {
    match kind
    case LineComment => if o.stripComments then RedactedLine(token) else token
    case BlockComment => if o.stripComments && |token| >= 2 then RedactedBlock(token) else token
    case StringLit => if o.redactSensitiveStrings && IsSensitive(token) then REDACTED_STRING else token
    case Number => if o.redactNumericLiterals && IsLong(token) then RedactedNumber(token) else token
    case _ => token
  }

  function RenderedToken(o: Options, u: Unicode, s: string, table: map<string, string>): string
    requires s != []
  {
    var token := s[..TokenLen(u, s)];
    if KindOf(u, s) != Ident then Redacted(o, KindOf(u, s), token)
    else if o.anonymizeIdentifiers && Renamed(u, s) && token in table then table[token]
    else token
  }

  /** The text as the options have it: identifiers replaced according to `table`, other tokens redacted. */
  function RenderWith(o: Options, u: Unicode, s: string, table: map<string, string>): string
    decreases |s|
  {
    if s == [] then [] else RenderedToken(o, u, s, table) + RenderWith(o, u, s[TokenLen(u, s)..], table)
  }

  function NamesWith(o: Options, u: Unicode, s: string, names: Names): Names {
    if o.anonymizeIdentifiers then NamesAfter(u, s, names) else names
  }

  /** With everything shown, only identifiers are replaced. */
  const RENAMING_ONLY := Options(true, false, false, false)

  lemma {:induction false} RenamingOnly(u: Unicode, s: string, table: map<string, string>)
    ensures RenderWith(RENAMING_ONLY, u, s, table) == Render(u, s, table)
    decreases |s|
  {
    hide KindOf, TokenLen, IsReserved, RedactedLine, RedactedBlock, IsSensitive, IsLong, RedactedNumber;
    if s != [] { RenamingOnly(u, s[TokenLen(u, s)..], table); }
  }

  /** Two tokens of one kind that the options hide alike, whatever they hold. */
  predicate Concealed(o: Options, kind: Kind, a: string, b: string) {
    match kind
    case LineComment => o.stripComments && (EndsLine(a) <==> EndsLine(b))
    case BlockComment => o.stripComments && |a| >= 2 && |b| >= 2 && !IsRangeMarker(a) && !IsRangeMarker(b)
    case StringLit => o.redactSensitiveStrings && IsSensitive(a) && IsSensitive(b)
    case Number =>
      && o.redactNumericLiterals && IsLong(a) && IsLong(b)
      && NumberParts(a).hex == NumberParts(b).hex && NumberParts(a).suffix == NumberParts(b).suffix
    case _ => false
  }

  /** Token by token, two texts are the same but for what the options hide. */
  ghost predicate SameButConcealed(o: Options, u: Unicode, s: string, t: string)
    decreases |s|
  {
    if s == [] || t == [] then s == t
    else
      var a, b := s[..TokenLen(u, s)], t[..TokenLen(u, t)];
      && KindOf(u, s) == KindOf(u, t) && (a == b || Concealed(o, KindOf(u, s), a, b))
      && SameButConcealed(o, u, s[TokenLen(u, s)..], t[TokenLen(u, t)..])
  }

  /** What is hidden leaves no trace: neither in the text nor in the names. */
  lemma {:induction false} ConcealedLeavesNoTrace(o: Options, u: Unicode, s: string, t: string,
      table: map<string, string>, names: Names)
    requires SameButConcealed(o, u, s, t)
    ensures RenderWith(o, u, s, table) == RenderWith(o, u, t, table)
            && NamesWith(o, u, s, names) == NamesWith(o, u, t, names)
    decreases |s|
  {
    hide KindOf, TokenLen, IsReserved, Concealed, Redacted;
    if s != [] && t != [] {
      var a, b := s[..TokenLen(u, s)], t[..TokenLen(u, t)];
      if a != b { ConcealedAlike(o, KindOf(u, s), a, b); }
      var next := if Renamed(u, s) then Intern(names, a) else names;
      ConcealedLeavesNoTrace(o, u, s[TokenLen(u, s)..], t[TokenLen(u, t)..], table, next);
    }
  }

  lemma ConcealedAlike(o: Options, kind: Kind, a: string, b: string)
    requires Concealed(o, kind, a, b)
    ensures Redacted(o, kind, a) == Redacted(o, kind, b) && kind != Ident
  {
    hide IsRangeMarker, IsSensitive, NumberParts, EndsLine;
  }

  /** `n` only adds to `m`. */
  ghost predicate Grows(m: Names, n: Names) {
    m.next <= n.next && forall k :: k in m.table ==> k in n.table && n.table[k] == m.table[k]
  }

  lemma {:induction false} NamesGrow(u: Unicode, s: string, names: Names)
    ensures Grows(names, NamesAfter(u, s, names))
    decreases |s|
  {
    if s != [] {
      NamesGrow(u, s[TokenLen(u, s)..], if Renamed(u, s) then Intern(names, s[..TokenLen(u, s)]) else names);
    }
  }

  /** Names stay valid, so injective, across any number of calls. */
  lemma {:induction false} NamesStayValid(u: Unicode, s: string, names: Names)
    requires ValidNames(names)
    ensures ValidNames(NamesAfter(u, s, names))
    decreases |s|
  {
    if s != [] {
      if Renamed(u, s) { InternValid(names, s[..TokenLen(u, s)]); }
      NamesStayValid(u, s[TokenLen(u, s)..], if Renamed(u, s) then Intern(names, s[..TokenLen(u, s)]) else names);
    }
  }

  /** Nothing but characters that can continue an identifier. */
  ghost predicate IdentOnly(u: Unicode, w: string) {
    forall i :: 0 <= i < |w| ==> u.IdentContinue(w[i])
  }

  lemma IdentChars(u: Unicode, s: string)
    requires s != [] && KindOf(u, s) == Ident
    ensures IdentOnly(u, s[..TokenLen(u, s)])
  {
    var n := TokenLen(u, s);
    forall i | 0 <= i < n ensures u.IdentContinue(s[i]) {
      if i > 0 { assert s[i] == s[1..][i - 1]; }
    }
  }

  /** Only identifiers have names. */
  ghost predicate IdentKeys(u: Unicode, n: Names) {
    forall k :: k in n.table ==> IdentOnly(u, k)
  }

  lemma {:induction false} KeysStayIdents(u: Unicode, s: string, names: Names)
    requires IdentKeys(u, names)
    ensures IdentKeys(u, NamesAfter(u, s, names))
    decreases |s|
  {
    hide KindOf, TokenLen, IsReserved, IdentOnly;
    if s != [] {
      if Renamed(u, s) { IdentChars(u, s); }
      KeysStayIdents(u, s[TokenLen(u, s)..], if Renamed(u, s) then Intern(names, s[..TokenLen(u, s)]) else names);
    }
  }

  /** Every renamable token of the text has a name afterwards. */
  ghost predicate Named(u: Unicode, s: string, table: map<string, string>)
    decreases |s|
  {
    s == [] || ((Renamed(u, s) ==> s[..TokenLen(u, s)] in table) && Named(u, s[TokenLen(u, s)..], table))
  }

  lemma {:induction false} AllNamed(u: Unicode, s: string, names: Names)
    ensures Named(u, s, NamesAfter(u, s, names).table)
    decreases |s|
  {
    if s != [] {
      var next := if Renamed(u, s) then Intern(names, s[..TokenLen(u, s)]) else names;
      AllNamed(u, s[TokenLen(u, s)..], next);
      NamesGrow(u, s[TokenLen(u, s)..], next);
    }
  }

  // ----- the de-anonymizer

  datatype Mode = Normal | InIdent(read: string) | InLine | InBlock | InQuote(quote: char)

  function Original(rev: map<string, string>, ident: string): string {
    if ident in rev then rev[ident] else ident
  }

  /** What the de-anonymizer outputs for the rest of the text, given its state. */
  function Restore(mode: Mode, s: string, rev: map<string, string>): string
    decreases |s|, if mode.InIdent? then 1 else 0
  {
    if s == [] then (if mode.InIdent? then Original(rev, mode.read) else [])
    else match mode
      case Normal =>
        if s[0] == '/' && |s| > 1 && s[1] == '/' then s[..2] + Restore(InLine, s[2..], rev)
        else if s[0] == '/' && |s| > 1 && s[1] == '*' then s[..2] + Restore(InBlock, s[2..], rev)
        else if s[0] == '"' || s[0] == '\'' then s[..1] + Restore(InQuote(s[0]), s[1..], rev)
        else if AsciiStart(s[0]) then Restore(InIdent(s[..1]), s[1..], rev)
        else s[..1] + Restore(Normal, s[1..], rev)
      case InIdent(read) =>
        if AsciiContinue(s[0]) then Restore(InIdent(read + s[..1]), s[1..], rev)
        else Original(rev, read) + Restore(Normal, s, rev)
      case InLine =>
        s[..1] + Restore(if s[0] == '\n' || s[0] == '\r' then Normal else InLine, s[1..], rev)
      case InBlock =>
        if s[0] == '*' && |s| > 1 && s[1] == '/' then s[..2] + Restore(Normal, s[2..], rev)
        else s[..1] + Restore(InBlock, s[1..], rev)
      case InQuote(q) =>
        if s[0] == '\\' then (if |s| == 1 then s else s[..2] + Restore(InQuote(q), s[2..], rev))
        else if s[0] == q then s[..1] + Restore(Normal, s[1..], rev)
        else s[..1] + Restore(InQuote(q), s[1..], rev)
  }

  // ----- the anonymizer as it runs, on a cursor over the remaining characters

  method TakeLine(chars: string) returns (raw: string, rest: string)
    ensures raw + rest == chars && |raw| == LineTail(chars)
  {
    raw, rest := [], chars;
    var done := false;
    while rest != [] && !done
      invariant raw + rest == chars
      invariant |raw| + (if done then 0 else LineTail(rest)) == LineTail(chars)
      decreases |rest|
    {
      done := rest[0] == '\n';
      raw, rest := raw + rest[..1], rest[1..];
    }
  }

  method TakeBlock(chars: string) returns (raw: string, rest: string)
    ensures raw + rest == chars && |raw| == BlockTail(chars)
  {
    raw, rest := [], chars;
    var done := false;
    while rest != [] && !done
      invariant raw + rest == chars
      invariant |raw| + (if done then 0 else BlockTail(rest)) == BlockTail(chars)
      decreases |rest|
    {
      if rest[0] == '*' && |rest| > 1 && rest[1] == '/' {
        raw, rest, done := raw + rest[..2], rest[2..], true;
      } else {
        raw, rest := raw + rest[..1], rest[1..];
      }
    }
  }

  /** How much of a literal is left, behind a backslash or not. */
  ghost function QuoteLeft(r: string, quote: char, escaped: bool): nat {
    if !escaped then QuoteTail(r, quote) else if r == [] then 0 else 1 + QuoteTail(r[1..], quote)
  }

  lemma {:induction false} QuoteLeftEnds(r: string, quote: char)
    ensures QuoteLeft(r, quote, false) == QuoteTail(r, quote)
    ensures r == [] ==> QuoteLeft(r, quote, false) == 0 && QuoteLeft(r, quote, true) == 0
  {
  }

  lemma {:induction false} QuoteStep(r: string, quote: char, escaped: bool)
    requires r != [] && quote != '\\'
    ensures QuoteLeft(r, quote, escaped) ==
            1 + if !escaped && r[0] == quote then 0 else QuoteLeft(r[1..], quote, !escaped && r[0] == '\\')
  {
    assert |r| > 1 ==> r[2..] == r[1..][1..];
  }

  method TakeQuoted(chars: string, quote: char) returns (raw: string, rest: string)
    requires quote != '\\'
    ensures raw + rest == chars && |raw| == QuoteTail(chars, quote)
  {
    hide QuoteTail, QuoteLeft;
    raw, rest := [], chars;
    var escaped, done := false, false;
    QuoteLeftEnds(chars, quote);
    while rest != [] && !done
      invariant raw + rest == chars
      invariant !(escaped && done)
      invariant |raw| + (if done then 0 else QuoteLeft(rest, quote, escaped)) == QuoteTail(chars, quote)
      decreases |rest|
    {
      var c := rest[0];
      QuoteStep(rest, quote, escaped);
      raw, rest := raw + rest[..1], rest[1..];
      if escaped {
        escaped := false;
      } else if c == '\\' {
        escaped := true;
      } else if c == quote {
        done := true;
      }
    }
    QuoteLeftEnds(rest, quote);
  }

  lemma Advance(raw: string, rest: string)
    requires rest != []
    ensures (raw + rest[..1]) + rest[1..] == raw + rest
  {
  }

  lemma {:induction false} IdentStep(u: Unicode, r: string)
    requires r != [] && u.IdentContinue(r[0])
    ensures IdentTail(u, r) == 1 + IdentTail(u, r[1..])
  {
  }

  method TakeIdent(u: Unicode, chars: string) returns (raw: string, rest: string)
    ensures raw + rest == chars && |raw| == IdentTail(u, chars)
  {
    hide IdentTail;
    raw, rest := [], chars;
    while rest != [] && u.IdentContinue(rest[0])
      invariant raw + rest == chars
      invariant |raw| + IdentTail(u, rest) == IdentTail(u, chars)
      decreases |rest|
    {
      IdentStep(u, rest);
      Advance(raw, rest);
      raw, rest := raw + rest[..1], rest[1..];
    }
  }

  method TakeDigits(chars: string, hex: bool) returns (raw: string, rest: string)
    ensures raw + rest == chars && |raw| == DigitTail(chars, hex)
  {
    raw, rest := [], chars;
    while rest != [] && (rest[0] == '_' || (if hex then IsHexDigit(rest[0]) else IsDigit(rest[0])))
      invariant raw + rest == chars
      invariant |raw| + DigitTail(rest, hex) == DigitTail(chars, hex)
      decreases |rest|
    {
      raw, rest := raw + rest[..1], rest[1..];
    }
  }

  method TakeNumber(first: char, chars: string) returns (raw: string, rest: string)
    ensures raw + rest == chars && |raw| == NumberTail(first, chars)
  {
    hide DigitTail;
    if first == '0' && chars != [] && (chars[0] == 'x' || chars[0] == 'X') {
      raw, rest := TakeDigits(chars[1..], true);
      raw := chars[..1] + raw;
    } else {
      raw, rest := TakeDigits(chars, false);
    }
    raw, rest := TakeSuffix(raw, rest);
  }

  method TakeSuffix(raw0: string, rest0: string) returns (raw: string, rest: string)
    ensures raw + rest == raw0 + rest0 && |raw| == |raw0| + SuffixTail((raw0 + rest0)[|raw0|..])
  {
    assert (raw0 + rest0)[|raw0|..] == rest0;
    raw, rest := raw0, rest0;
    if rest != [] && IsNumberSuffix(rest[0]) {
      raw, rest := raw + rest[..1], rest[1..];
    }
  }

  /** One token off the cursor. */
  method TakeToken(u: Unicode, chars: string) returns (token: string, rest: string)
    requires chars != []
    ensures token == chars[..TokenLen(u, chars)] && rest == chars[TokenLen(u, chars)..]
  {
    var raw;
    match KindOf(u, chars) {
      case LineComment =>
        raw, rest := TakeLine(chars[2..]);
        token := chars[..2] + raw;
      case BlockComment =>
        raw, rest := TakeBlock(chars[2..]);
        token := chars[..2] + raw;
      case StringLit =>
        raw, rest := TakeQuoted(chars[1..], '"');
        token := chars[..1] + raw;
      case CharLit =>
        raw, rest := TakeQuoted(chars[1..], '\'');
        token := chars[..1] + raw;
      case Ident =>
        raw, rest := TakeIdent(u, chars[1..]);
        token := chars[..1] + raw;
      case Number =>
        raw, rest := TakeNumber(chars[0], chars[1..]);
        token := chars[..1] + raw;
      case Plain =>
        token, rest := chars[..1], chars[1..];
    }
    assert chars == token + rest;
  }

  class CodeAnonymizer {
    const options: Options
    const unicode: Unicode
    var nameMap: map<string, string>
    var nextId: nat

    ghost function State(): Names
      reads this
    {
      Names(nameMap, nextId)
    }

    constructor (options: Options, unicode: Unicode)
      ensures State() == Names(map[], 0) && ValidNames(State()) && IdentKeys(unicode, State())
      ensures this.options == options && this.unicode == unicode
    {
      this.options := options;
      this.unicode := unicode;
      nameMap, nextId := map[], 0;
    }

    method GetOrCreateAnonName(original: string) returns (anon: string)
      modifies this
      ensures State() == Intern(old(State()), original)
      ensures original in nameMap && anon == nameMap[original]
    {
      if original in nameMap {
        return nameMap[original];
      }
      anon := Placeholder(nextId);
      nextId := nextId + 1;
      nameMap := nameMap[original := anon];
    }

    method Anonymize(code: string) returns (out: string)
      requires ValidNames(State()) && IdentKeys(unicode, State())
      modifies this
      ensures State() == NamesWith(options, unicode, code, old(State())) && ValidNames(State())
              && IdentKeys(unicode, State())
      ensures out == RenderWith(options, unicode, code, nameMap)
      ensures options.anonymizeIdentifiers ==> Named(unicode, code, nameMap)
      ensures options == RENAMING_ONLY ==> out == Render(unicode, code, nameMap)
    {
      hide KindOf, TokenLen, IsReserved, ValidNames, IdentKeys, Named, RenderWith, Redacted, RenderedToken, Render;
      ghost var final := NamesWith(options, unicode, code, State());
      NamesStayValid(unicode, code, State());
      KeysStayIdents(unicode, code, State());
      AllNamed(unicode, code, State());
      RenamingOnly(unicode, code, final.table);
      out := [];
      var chars := code;
      assert out + RenderWith(options, unicode, chars, final.table) == RenderWith(options, unicode, code, final.table);
      while chars != []
        invariant NamesWith(options, unicode, chars, State()) == final
        invariant out + RenderWith(options, unicode, chars, final.table)
                  == RenderWith(options, unicode, code, final.table)
        decreases |chars|
      {
        var token, rest := TakeToken(unicode, chars);
        TokenRendered(options, unicode, out, chars, final.table);
        RenderedTokenIs(options, unicode, chars, final.table);
        if KindOf(unicode, chars) == Ident {
          if options.anonymizeIdentifiers && !IsReserved(token) {
            var anon := GetOrCreateAnonName(token);
            NamesGrow(unicode, rest, State());
            out := out + anon;
          } else {
            out := out + token;
          }
        } else {
          out := out + Redacted(options, KindOf(unicode, chars), token);
        }
        chars := rest;
      }
      NothingRendered(options, unicode, out, final.table);
    }
  }

  lemma RenderedTokenIs(o: Options, u: Unicode, s: string, table: map<string, string>)
    requires s != []
    ensures var token := s[..TokenLen(u, s)];
            RenderedToken(o, u, s, table) ==
            if KindOf(u, s) != Ident then Redacted(o, KindOf(u, s), token)
            else if o.anonymizeIdentifiers && !IsReserved(token) && token in table then table[token]
            else token
  {
    hide KindOf, TokenLen, IsReserved, Redacted;
  }

  lemma {:induction false} TokenRendered(o: Options, u: Unicode, out: string, s: string, table: map<string, string>)
    requires s != []
    ensures (out + RenderedToken(o, u, s, table)) + RenderWith(o, u, s[TokenLen(u, s)..], table)
            == out + RenderWith(o, u, s, table)
  {
    hide KindOf, TokenLen, IsReserved, RenderedToken;
  }

  lemma {:induction false} NothingRendered(o: Options, u: Unicode, out: string, table: map<string, string>)
    ensures out + RenderWith(o, u, [], table) == out
  {
  }

  // ----- the reverse map

  /** `str` comparison. */
  predicate LexLess(a: string, b: string) {
    b != [] && (a == [] || a[0] < b[0] || (a[0] == b[0] && LexLess(a[1..], b[1..])))
  }

  lemma {:induction false} LexLessTransitive(a: string, b: string, c: string)
    requires LexLess(a, b) && LexLess(b, c)
    ensures LexLess(a, c)
  {
    if a != [] && a[0] == b[0] && b[0] == c[0] { LexLessTransitive(a[1..], b[1..], c[1..]); }
  }

  /** `rev` maps each name of an identifier in `done` to the least such identifier. */
  ghost predicate ReverseOf(table: map<string, string>, done: set<string>, rev: map<string, string>) {
    && done <= table.Keys
    && (forall k :: k in done ==> table[k] in rev && !LexLess(k, rev[table[k]]))
    && (forall a :: a in rev ==> rev[a] in done && table[rev[a]] == a)
  }

  /** `build_reverse_identifier_map`, whatever order the hash map is walked in. */
  method BuildReverse(table: map<string, string>) returns (rev: map<string, string>)
    ensures ReverseOf(table, table.Keys, rev)
  {
    rev := map[];
    var todo := table.Keys;
    while todo != {}
      invariant todo <= table.Keys
      invariant ReverseOf(table, table.Keys - todo, rev)
      decreases |todo|
    {
      var original :| original in todo;
      ReverseStep(table, table.Keys - todo, rev, original);
      var anon := table[original];
      if anon !in rev || LexLess(original, rev[anon]) {
        rev := rev[anon := original];
      }
      todo := todo - {original};
      assert table.Keys - todo == (table.Keys - (todo + {original})) + {original};
    }
    assert table.Keys - {} == table.Keys;
  }

  lemma {:induction false} ReverseStep(table: map<string, string>, done: set<string>, rev: map<string, string>,
      original: string)
    requires ReverseOf(table, done, rev) && original in table
    ensures var anon := table[original];
      ReverseOf(table, done + {original},
                if anon !in rev || LexLess(original, rev[anon]) then rev[anon := original] else rev)
  {
    hide LexLess, ReverseOf;
    if table[original] !in rev {
      AddFirst(table, done, rev, original);
    } else if LexLess(original, rev[table[original]]) {
      ReplaceLeast(table, done, rev, original);
    } else {
      KeepLeast(table, done, rev, original);
    }
  }

  lemma AddFirst(table: map<string, string>, done: set<string>, rev: map<string, string>, original: string)
    requires ReverseOf(table, done, rev) && original in table && table[original] !in rev
    ensures ReverseOf(table, done + {original}, rev[table[original] := original])
  {
    NotLessSelf(original);
    hide LexLess;
    var next := rev[table[original] := original];
    forall k | k in done + {original} ensures table[k] in next && !LexLess(k, next[table[k]]) {
      if k != original { assert table[k] in rev && table[k] != table[original]; }
    }
  }

  lemma {:induction false} KeepLeast(table: map<string, string>, done: set<string>, rev: map<string, string>,
      original: string)
    requires ReverseOf(table, done, rev) && original in table && table[original] in rev
             && !LexLess(original, rev[table[original]])
    ensures ReverseOf(table, done + {original}, rev)
  {
    hide LexLess;
  }

  lemma {:induction false} ReplaceLeast(table: map<string, string>, done: set<string>, rev: map<string, string>,
      original: string)
    requires ReverseOf(table, done, rev) && original in table && table[original] in rev
             && LexLess(original, rev[table[original]])
    ensures ReverseOf(table, done + {original}, rev[table[original] := original])
  {
    var anon := table[original];
    var next := rev[anon := original];
    forall k | k in done + {original} ensures table[k] in next && !LexLess(k, next[table[k]]) {
      if k == original {
        NotLessSelf(original);
      } else if table[k] == anon && LexLess(k, original) {
        LexLessTransitive(k, original, rev[anon]);
      }
    }
  }

  lemma {:induction false} NotLessSelf(a: string)
    ensures !LexLess(a, a)
  {
    if a != [] { NotLessSelf(a[1..]); }
  }

  /** For the tables the anonymizer builds, the reverse map is the inverse. */
  lemma ReverseIsInverse(names: Names, rev: map<string, string>)
    requires ValidNames(names) && ReverseOf(names.table, names.table.Keys, rev)
    ensures forall k :: k in names.table ==> names.table[k] in rev && rev[names.table[k]] == k
    ensures forall a :: a in rev ==> exists n: nat :: a == Placeholder(n)
  {
    forall a | a in rev ensures exists n: nat :: a == Placeholder(n) {
      var n: nat :| n < names.next && names.table[rev[a]] == Placeholder(n);
    }
  }

  // ----- the de-anonymizer as it runs

  method Deanonymize(code: string, rev: map<string, string>) returns (out: string)
    ensures out == Restore(Normal, code, rev)
  {
    if rev == map[] {
      NothingToRestore(Normal, code);
      return code;
    }
    out := [];
    var i, mode := 0, Normal;
    while i < |code|
      invariant i <= |code| && !mode.InIdent?
      invariant out + Restore(mode, code[i..], rev) == Restore(Normal, code, rev)
      decreases |code| - i
    {
      var next, step, nextMode := DeanonymizeStep(code, i, mode, rev);
      out, i, mode := out + step, next, nextMode;
    }
  }

  /** One turn of the scanner: a delimiter, an identifier, an escape, or a single character. */
  method DeanonymizeStep(code: string, i: nat, mode: Mode, rev: map<string, string>)
    returns (next: nat, step: string, nextMode: Mode)
    requires i < |code| && !mode.InIdent?
    ensures i < next <= |code| && !nextMode.InIdent?
    ensures Restore(mode, code[i..], rev) == step + Restore(nextMode, code[next..], rev)
  {
    ghost var s := code[i..];
    assert code[i + 1..] == s[1..] && s[..1] == [code[i]] && code[i..i + 1] == s[..1];
    assert i + 1 == |code| ==> s == [code[i]];
    assert i + 1 < |code| ==> code[i + 1] == s[1] && code[i + 2..] == s[2..] && code[i..i + 2] == s[..2];
    next, step, nextMode := i + 1, [code[i]], mode;
    match mode
    case Normal =>
      if code[i] == '/' && i + 1 < |code| && (code[i + 1] == '/' || code[i + 1] == '*') {
        return i + 2, code[i..i + 2], if code[i + 1] == '/' then InLine else InBlock;
      } else if code[i] == '"' || code[i] == '\'' {
        nextMode := InQuote(code[i]);
      } else if AsciiStart(code[i]) {
        next, step := RestoreIdent(code, i, rev);
      }
    case InLine =>
      if code[i] == '\n' || code[i] == '\r' {
        nextMode := Normal;
      }
    case InBlock =>
      if code[i] == '*' && i + 1 < |code| && code[i + 1] == '/' {
        return i + 2, code[i..i + 2], Normal;
      }
    case InQuote(q) =>
      if code[i] == '\\' {
        if i + 1 < |code| {
          next, step := i + 2, code[i..i + 2];
        }
      } else if code[i] == q {
        nextMode := Normal;
      }
  }

  method RestoreIdent(code: string, start: nat, rev: map<string, string>) returns (i: nat, step: string)
    requires start < |code| && AsciiStart(code[start])
    ensures start < i <= |code|
    ensures Restore(InIdent(code[start..start + 1]), code[start + 1..], rev) == step + Restore(Normal, code[i..], rev)
  {
    i := start + 1;
    while i < |code| && AsciiContinue(code[i])
      invariant start < i <= |code|
      invariant Restore(InIdent(code[start..i]), code[i..], rev)
                == Restore(InIdent(code[start..start + 1]), code[start + 1..], rev)
    {
      assert code[start..i + 1] == code[start..i] + code[i..][..1];
      assert code[i..][1..] == code[i + 1..];
      i := i + 1;
    }
    step := if code[start..i] in rev then rev[code[start..i]] else code[start..i];
  }

  lemma {:induction false} NothingToRestore(mode: Mode, s: string)
    ensures Restore(mode, s, map[]) == (if mode.InIdent? then mode.read else []) + s
    decreases |s|, if mode.InIdent? then 1 else 0
  {
    if s != [] {
      assert s == s[..1] + s[1..];
      if mode.InIdent? {
        if AsciiContinue(s[0]) {
          NothingToRestore(InIdent(mode.read + s[..1]), s[1..]);
        } else {
          NothingToRestore(Normal, s);
        }
      } else if |s| > 1 && TwoAtOnce(mode, s) {
        assert s == s[..2] + s[2..];
        NothingToRestore(if mode.Normal? then (if s[1] == '/' then InLine else InBlock) else if mode.InBlock?
            then Normal else mode, s[2..]);
      } else if mode.Normal? && AsciiStart(s[0]) {
        NothingToRestore(InIdent(s[..1]), s[1..]);
      } else {
        NothingToRestore(InQuote(s[0]), s[1..]);
        NothingToRestore(Normal, s[1..]);
        NothingToRestore(mode, s[1..]);
      }
    }
  }

  /** The scanner takes two characters: a comment delimiter or an escape. */
  predicate TwoAtOnce(mode: Mode, s: string)
    requires |s| > 1
  {
    match mode
    case Normal => s[0] == '/' && (s[1] == '/' || s[1] == '*')
    case InBlock => s[0] == '*' && s[1] == '/'
    case InQuote(_) => s[0] == '\\'
    case _ => false
  }
}
