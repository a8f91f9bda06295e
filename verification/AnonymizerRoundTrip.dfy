/**
 When de-anonymizing anonymized code gives the code back. The two lexers are run side by side, one
 token of the first at a time; nothing is assumed about whether the second is in step with it.
 */
module AnonymizerRoundTrip {
  import opened Decimals
  import opened ReservedWords
  import opened Redaction
  import opened Anonymizer
  import opened SecondLexer

  /** `rev` undoes `table`, and its keys are placeholders for identifiers. */
  ghost predicate Inverse(u: Unicode, table: map<string, string>, rev: map<string, string>) {
    && (forall k :: k in table ==> table[k] in rev && rev[table[k]] == k)
    && (forall k :: k in table ==> IsPlaceholder(table[k]))
    && (forall a :: a in rev ==> IsPlaceholder(a) && IdentOnly(u, rev[a]))
  }

  ghost predicate IsPlaceholder(w: string) {
    exists n: nat :: w == Placeholder(n)
  }

  ghost predicate AllContinue(t: string) {
    forall i :: 0 <= i < |t| ==> AsciiContinue(t[i])
  }

  lemma PlaceholderShape(p: string)
    requires IsPlaceholder(p)
    ensures |p| >= 4 && p[0] == 'i' && p[2] == '_' && AllContinue(p)
  {
    hide Decimal;
  }

  lemma NotAKey(u: Unicode, table: map<string, string>, rev: map<string, string>, w: string)
    requires Inverse(u, table, rev) && w != [] && (w[0] != 'i' || Letters(w))
    ensures Original(rev, w) == w
  {
    if w in rev { PlaceholderShape(w); }
  }

  // ----- where the second lexer can stand at the end of a token

  predicate QuoteMark(c: char) { c == '"' || c == '\'' }

  /** Any word being read began in a numeric literal. */
  ghost predicate Between(m: Scan) {
    && (m.Word? ==> m.read != [] && m.read[0] != 'i')
    && (m.Quote? || m.Escape? ==> QuoteMark(m.q))
  }

  /** As `Between`, with any word being read. */
  ghost predicate Sound(m: Scan) {
    m.Quote? || m.Escape? ==> QuoteMark(m.q)
  }

  lemma {:induction false} AfterSound(m: Scan, t: string)
    requires Sound(m)
    ensures Sound(After(m, t))
    decreases |t|
  {
    if t != [] { AfterSound(Next(m, t[0]), t[1..]); }
  }

  /** A character that cannot continue a word leaves none open. */
  lemma {:induction false} BreakAfter(m: Scan, t: string)
    requires t != [] && !AsciiContinue(t[|t| - 1]) && Sound(m)
    ensures !After(m, t).Word? && Between(After(m, t))
  {
    hide Next;
    var n := |t| - 1;
    assert t == t[..n] + [t[n]];
    AfterAppend(m, t[..n], [t[n]]);
    AfterSound(m, t);
    OneChar(After(m, t[..n]), t[n]);
  }

  lemma {:induction false} OneChar(m: Scan, c: char)
    ensures After(m, [c]) == Next(m, c)
    ensures !AsciiContinue(c) ==> !Next(m, c).Word?
  {
    assert [c][1..] == [];
  }

  /** A numeric literal leaves at most a word that began in it or in another literal before it. */
  lemma {:induction false} NumberAfter(m: Scan, t: string, rev: map<string, string>)
    requires Between(m) && forall i :: 0 <= i < |t| ==> AsciiContinue(t[i]) && t[i] != 'i'
    ensures Between(After(m, t)) && Quiet(m, t, rev)
    decreases |t|
  {
    if t != [] {
      assert Between(Next(m, t[0])) && !EndsWord(m, t[0]);
      NumberAfter(Next(m, t[0]), t[1..], rev);
    }
  }

  // ----- words

  /** Nothing that could extend a word follows. */
  predicate Breaks(r: string) {
    r == [] || !AsciiContinue(r[0])
  }

  lemma {:induction false} WordHeld(read: string, w: string, rev: map<string, string>)
    requires AllContinue(w)
    ensures After(Word(read), w) == Word(read + w) && Emit(Word(read), w, rev) == []
    decreases |w|
  {
    if w == [] {
      assert read + w == read;
    } else {
      WordHeld(read + [w[0]], w[1..], rev);
      assert read + [w[0]] + w[1..] == read + w;
    }
  }

  lemma {:induction false} WordContinued(read: string, w: string, r: string, rev: map<string, string>)
    requires AllContinue(w) && Breaks(r)
    ensures Run(Word(read), w + r, rev) == Original(rev, read + w) + Run(Idle, r, rev)
  {
    hide Run, Emit, After;
    RunAppend(Word(read), w, r, rev);
    WordHeld(read, w, rev);
    WordEnded(read + w, r, rev);
  }

  lemma {:induction false} WordRead(m: Scan, w: string, r: string, rev: map<string, string>)
    requires (m.Idle? || m.Slash?) && w != [] && AsciiStart(w[0]) && AllContinue(w) && Breaks(r)
    ensures Run(m, w + r, rev) == Original(rev, w) + Run(Idle, r, rev)
  {
    hide Run;
    RunCons(m, w + r, rev);
    assert (w + r)[1..] == w[1..] + r && (w + r)[0] == w[0];
    WordContinued([w[0]], w[1..], r, rev);
    assert [w[0]] + w[1..] == w;
  }

  /** Inside a comment or quote a word passes as it is. */
  lemma {:induction false} WordPasses(m: Scan, w: string, rev: map<string, string>)
    requires Sound(m) && !m.Idle? && !m.Slash? && !m.Word? && AllContinue(w)
    ensures Emit(m, w, rev) == w && !After(m, w).Word? && !After(m, w).Idle? && !After(m, w).Slash?
            && Sound(After(m, w))
    decreases |w|
  {
    if w != [] {
      var n := Next(m, w[0]);
      assert Sound(n) && !n.Idle? && !n.Slash? && !n.Word?;
      WordPasses(n, w[1..], rev);
      assert w == [w[0]] + w[1..];
    }
  }

  // ----- tokens

  lemma NumberShape(u: Unicode, s: string)
    requires s != [] && KindOf(u, s) == Number
    ensures var t := s[..TokenLen(u, s)]; AllContinue(t) && (forall i :: 0 <= i < |t| ==> t[i] != 'i') && IsDigit(t[0])
  {
    var r := s[1..];
    NumberToken(u, s);
    hide KindOf, TokenLen;
    if s[0] == '0' && r != [] && (r[0] == 'x' || r[0] == 'X') {
      HexShape(s, r, 1 + DigitTail(r[1..], true));
    } else {
      DecimalShape(s, r, DigitTail(r, false));
    }
  }

  lemma NumberToken(u: Unicode, s: string)
    requires s != [] && KindOf(u, s) == Number
    ensures IsDigit(s[0]) && TokenLen(u, s) == 1 + NumberTail(s[0], s[1..])
  {
    hide NumberTail;
  }

  lemma HexShape(s: string, r: string, n: nat)
    requires s != [] && IsDigit(s[0]) && r == s[1..] && r != [] && (r[0] == 'x' || r[0] == 'X')
             && n == 1 + DigitTail(r[1..], true)
    ensures var t := s[..1 + n + SuffixTail(r[n..])]; AllContinue(t) && forall i :: 0 <= i < |t| ==> t[i] != 'i'
  {
    hide DigitTail;
    var t := s[..1 + n + SuffixTail(r[n..])];
    forall i | 0 <= i < |t| ensures AsciiContinue(t[i]) && t[i] != 'i' {
      if 2 <= i < 1 + n { assert t[i] == r[1..][i - 2]; }
      if i == 1 + n { assert t[i] == r[n..][0]; }
    }
  }

  lemma {:induction false} DecimalShape(s: string, r: string, n: nat)
    requires s != [] && IsDigit(s[0]) && r == s[1..] && n == DigitTail(r, false)
    ensures var t := s[..1 + n + SuffixTail(r[n..])]; AllContinue(t) && forall i :: 0 <= i < |t| ==> t[i] != 'i'
  {
    hide DigitTail;
    var t := s[..1 + n + SuffixTail(r[n..])];
    forall i | 0 <= i < |t| ensures AsciiContinue(t[i]) && t[i] != 'i' {
      if 1 <= i < 1 + n { assert t[i] == r[i - 1]; }
      if i == 1 + n { assert t[i] == r[n..][0]; }
    }
  }

  lemma HeadNotTail(u: Unicode, s: string)
    requires s != [] && KindOf(u, s) != Ident && KindOf(u, s) != Number
    ensures !AsciiContinue(s[0]) && s[..TokenLen(u, s)][0] == s[0]
  {
  }

  /** A token other than an identifier or literal ends in a character that continues no word. */
  lemma TokenLast(u: Unicode, s: string)
    requires s != [] && KindOf(u, s) != Ident && KindOf(u, s) != Number && TokenLen(u, s) < |s|
    ensures var last := s[TokenLen(u, s) - 1];
            !AsciiContinue(last) && (KindOf(u, s) != Plain ==> !u.IdentContinue(last))
  {
    var n := TokenLen(u, s);
    match KindOf(u, s)
    case LineComment => assert s[n - 1] == s[2..][n - 3];
    case BlockComment => assert s[n - 1] == s[2..][n - 3];
    case StringLit => assert s[n - 1] == s[1..][n - 2];
    case CharLit => assert s[n - 1] == s[1..][n - 2];
    case Plain =>
  }

  /** `r` can stand for the rendering of `rest`. */
  ghost predicate Follows(u: Unicode, rest: string, r: string) {
    && (rest == [] <==> r == [])
    && (rest != [] ==> r[0] == rest[0] || (u.IdentContinue(rest[0]) && AsciiContinue(r[0])))
  }

  /** The next character after an identifier token does not extend it, nor what it is rendered to. */
  lemma IdentBreaks(u: Unicode, s: string, r: string)
    requires s != [] && KindOf(u, s) == Ident && Follows(u, s[TokenLen(u, s)..], r)
    ensures Breaks(r)
    ensures s[TokenLen(u, s)..] == [] || !u.IdentContinue(s[TokenLen(u, s)])
  {
    var n := TokenLen(u, s);
    if n < |s| { assert s[n] == s[1..][n - 1]; }
  }

  function RenderToken(u: Unicode, s: string, table: map<string, string>): string
    requires s != []
  {
    var t := s[..TokenLen(u, s)];
    if Renamed(u, s) && t in table then table[t] else t
  }

  lemma RenderedWord(u: Unicode, s: string, table: map<string, string>, rev: map<string, string>)
    requires s != [] && KindOf(u, s) == Ident && Inverse(u, table, rev)
    requires Renamed(u, s) ==> s[..TokenLen(u, s)] in table
    ensures var w := RenderToken(u, s, table); w != [] && AsciiStart(w[0]) && AllContinue(w)
    ensures Original(rev, RenderToken(u, s, table)) == s[..TokenLen(u, s)]
  {
    hide KindOf, TokenLen, IsReserved;
    var t := s[..TokenLen(u, s)];
    if Renamed(u, s) {
      PlaceholderShape(table[t]);
    } else {
      ReservedLetters(t);
      NotAKey(u, table, rev, t);
    }
  }

  lemma {:induction false} RenderFollows(u: Unicode, s: string, table: map<string, string>, rev: map<string, string>)
    requires Named(u, s, table) && Inverse(u, table, rev)
    ensures Follows(u, s, Render(u, s, table))
  {
    if s != [] && Renamed(u, s) { PlaceholderShape(table[s[..TokenLen(u, s)]]); }
  }

  /** What is written for a token, and where that leaves the second lexer. */
  datatype Turn = Turn(emitted: string, scan: Scan)

  function TurnOf(u: Unicode, m: Scan, s: string, table: map<string, string>, rev: map<string, string>): Turn
    requires s != []
  {
    var t, w := s[..TokenLen(u, s)], RenderToken(u, s, table);
    if KindOf(u, s) != Ident then Turn(Emit(m, t, rev), After(m, t))
    else if m.Idle? || m.Slash? then Turn(t, Idle)
    else if m.Word? then Turn(m.read + w, Idle)
    else Turn(w, After(m, w))
  }

  lemma {:induction false} IdentTurn(u: Unicode, m: Scan, s: string, table: map<string, string>,
      rev: map<string, string>, r: string)
    requires s != [] && KindOf(u, s) == Ident && Between(m) && Inverse(u, table, rev)
    requires Renamed(u, s) ==> s[..TokenLen(u, s)] in table
    requires Follows(u, s[TokenLen(u, s)..], r)
    ensures var turn := TurnOf(u, m, s, table, rev);
      Run(m, RenderToken(u, s, table) + r, rev) == turn.emitted + Run(turn.scan, r, rev) && Between(turn.scan)
      && !turn.scan.Word?
  {
    hide KindOf, TokenLen, Renamed, Run, Inverse, Follows, Breaks, AllContinue, RenderToken, Emit, After;
    var w := RenderToken(u, s, table);
    IdentBreaks(u, s, r);
    RenderedWord(u, s, table, rev);
    if m.Idle? || m.Slash? {
      WordRead(m, w, r, rev);
    } else if m.Word? {
      WordContinued(m.read, w, r, rev);
      NotAKey(u, table, rev, m.read + w);
    } else {
      WordPasses(m, w, rev);
      RunAppend(m, w, r, rev);
    }
  }

  lemma {:induction false} OtherTurn(u: Unicode, m: Scan, s: string, table: map<string, string>,
      rev: map<string, string>, r: string)
    requires s != [] && KindOf(u, s) != Ident && Between(m)
    ensures var turn := TurnOf(u, m, s, table, rev);
      && Run(m, RenderToken(u, s, table) + r, rev) == turn.emitted + Run(turn.scan, r, rev)
      && (TokenLen(u, s) < |s| ==> Between(turn.scan))
  {
    hide Run, Emit, After;
    var t := s[..TokenLen(u, s)];
    RunAppend(m, t, r, rev);
    if KindOf(u, s) == Number {
      NumberShape(u, s);
      NumberAfter(m, t, rev);
    } else if TokenLen(u, s) < |s| {
      TokenLast(u, s);
      BreakAfter(m, t);
    }
  }

  // ----- whole texts

  /** What de-anonymization gives back, token by token. */
  function Back(u: Unicode, m: Scan, s: string, table: map<string, string>, rev: map<string, string>): string
    decreases |s|
  {
    if s == [] then Flush(m, rev)
    else
      var turn := TurnOf(u, m, s, table, rev);
      turn.emitted + Back(u, turn.scan, s[TokenLen(u, s)..], table, rev)
  }

  lemma {:induction false} RunRender(u: Unicode, m: Scan, s: string, table: map<string, string>,
      rev: map<string, string>)
    requires (Between(m) || s == []) && Inverse(u, table, rev) && Named(u, s, table)
    ensures Run(m, Render(u, s, table), rev) == Back(u, m, s, table, rev)
    decreases |s|
  {
    hide KindOf, TokenLen, Renamed, Run, Inverse, Follows, TurnOf, Between;
    if s == [] {
      RunNothing(m, rev);
    } else {
      var rest := s[TokenLen(u, s)..];
      var r := Render(u, rest, table);
      var turn := TurnOf(u, m, s, table, rev);
      RenderFollows(u, rest, table, rev);
      if KindOf(u, s) == Ident { IdentTurn(u, m, s, table, rev, r); } else { OtherTurn(u, m, s, table, rev, r); }
      RunRender(u, turn.scan, rest, table, rev);
    }
  }

  /** The exact result of de-anonymizing anonymized code, whatever the code. */
  lemma {:induction false} RestoreRender(u: Unicode, s: string, table: map<string, string>, rev: map<string, string>)
    requires Inverse(u, table, rev) && Named(u, s, table)
    ensures Restore(Normal, Render(u, s, table), rev) == Back(u, Idle, s, table, rev)
  {
    RestoreIsRun(Normal, Render(u, s, table), rev);
    RunRender(u, Idle, s, table, rev);
  }

  // ----- when the code comes back

  /**
   Every identifier whose name changes is met between words, outside what the second lexer takes for
   comments and quotes; and no word that it meets elsewhere in the code, such as behind a carriage
   return in a line comment, is the name of something else.
   */
  predicate Restorable(u: Unicode, m: Scan, s: string, table: map<string, string>, rev: map<string, string>)
    decreases |s|
  {
    if s == [] then m.Word? ==> Original(rev, m.read) == m.read
    else
      var t := s[..TokenLen(u, s)];
      && (if KindOf(u, s) == Ident then m.Idle? || m.Slash? || (Renamed(u, s) && t in table ==> table[t] == t)
          else Quiet(m, t, rev))
      && Restorable(u, TurnOf(u, m, s, table, rev).scan, s[TokenLen(u, s)..], table, rev)
  }

  lemma SamePrefix(t: string, a: string, b: string)
    ensures t + a == t + b <==> a == b
  {
    if t + a == t + b { assert a == (t + a)[|t|..] && b == (t + b)[|t|..]; }
  }

  /** Words of identifier characters that are followed by something else are told apart. */
  lemma WordsDiffer(u: Unicode, a: string, x: string, b: string, y: string)
    requires a + x == b + y && IdentOnly(u, a) && IdentOnly(u, b)
    requires x == [] || !u.IdentContinue(x[0])
    requires y == [] || !u.IdentContinue(y[0])
    ensures a == b
  {
    RunLength(u, a, x);
    RunLength(u, b, y);
    assert a == (a + x)[..|a|] && b == (b + y)[..|b|];
  }

  lemma {:induction false} RunLength(u: Unicode, a: string, x: string)
    requires IdentOnly(u, a) && (x == [] || !u.IdentContinue(x[0]))
    ensures IdentTail(u, a + x) == |a|
  {
    if a == [] {
      assert a + x == x;
    } else {
      assert (a + x)[1..] == a[1..] + x;
      RunLength(u, a[1..], x);
    }
  }

  // ----- a word replaced by what it names shows in the result

  /** Characters that are not part of words are never lost. */
  lemma {:induction false} NothingLost(m: Scan, a: string, c: char, rev: map<string, string>)
    requires !AsciiContinue(c)
    ensures multiset(Emit(m, a, rev))[c] >= multiset(a)[c]
    decreases |a|
  {
    if a != [] {
      NothingLost(Next(m, a[0]), a[1..], c, rev);
      assert a == [a[0]] + a[1..];
      assert multiset(EmitChar(m, a[0], rev))[c] >= multiset([a[0]])[c] by { OneNotLost(m, a[0], c, rev); }
    }
  }

  lemma OneNotLost(m: Scan, x: char, c: char, rev: map<string, string>)
    requires !AsciiContinue(c)
    ensures multiset(EmitChar(m, x, rev))[c] >= multiset([x])[c]
  {
    if x == c { assert EmitChar(m, x, rev)[|EmitChar(m, x, rev)| - 1] == c; }
  }

  /** Text in front of what is written cannot make up for it. */
  lemma {:induction false} Outnumbered(z: string, a: string, rev: map<string, string>)
    requires z != [] && !AsciiContinue(z[0])
    ensures z + Run(Idle, a, rev) != a
  {
    hide Emit, After, Flush;
    NothingLost(Idle, a, z[0], rev);
    assert multiset(z + Run(Idle, a, rev))
           == multiset(z) + (multiset(Emit(Idle, a, rev)) + multiset(Flush(After(Idle, a), rev)));
    assert multiset(z)[z[0]] >= 1;
  }

  /** Identifier characters are written as identifier characters. */
  lemma {:induction false} IdentsOut(u: Unicode, m: Scan, a: string, table: map<string, string>,
      rev: map<string, string>)
    requires (m.Idle? || (m.Word? && AllContinue(m.read))) && IdentOnly(u, a) && Inverse(u, table, rev)
    ensures IdentOnly(u, Run(m, a, rev)) && (After(m, a).Idle? || After(m, a).Word?)
    decreases |a|
  {
    if a == [] {
      RunNothing(m, rev);
    } else {
      RunCons(m, a, rev);
      var n := Next(m, a[0]);
      assert n.Idle? || (n.Word? && AllContinue(n.read));
      IdentsOut(u, n, a[1..], table, rev);
      assert IdentOnly(u, EmitChar(m, a[0], rev));
      hide Run, EmitChar;
    }
  }

  lemma {:induction false} RunParts(m: Scan, s: string, rev: map<string, string>)
    ensures Run(m, s, rev) == Emit(m, s, rev) + Flush(After(m, s), rev)
  {
  }

  /** The words end where the identifier characters do. */
  lemma {:induction false} IdentsThen(u: Unicode, t: string, table: map<string, string>,
      rev: map<string, string>) returns (o: string)
    requires Inverse(u, table, rev) && IdentTail(u, t) < |t|
    ensures var a, b := t[..IdentTail(u, t)], t[IdentTail(u, t)..];
      IdentOnly(u, Run(Idle, a, rev)) && Emit(Idle, t, rev) == Run(Idle, a, rev) + ([b[0]] + o)
  {
    hide Emit, Run, After, Flush;
    var n := IdentTail(u, t);
    var a, b := t[..n], t[n..];
    assert t == a + b;
    IdentsOut(u, Idle, a, table, rev);
    EmitAppend(Idle, a, b, rev);
    RunParts(Idle, a, rev);
    o := WordThen(After(Idle, a), b, rev);
    assert Emit(Idle, a, rev) + (Flush(After(Idle, a), rev) + ([b[0]] + o)) == Run(Idle, a, rev) + ([b[0]] + o);
  }

  lemma {:induction false} WordThen(m: Scan, b: string, rev: map<string, string>) returns (o: string)
    requires (m.Idle? || m.Word?) && b != [] && !AsciiContinue(b[0])
    ensures Emit(m, b, rev) == Flush(m, rev) + ([b[0]] + o)
  {
    o := Emit(Next(m, b[0]), b[1..], rev);
    assert EmitChar(m, b[0], rev) == Flush(m, rev) + [b[0]];
    hide EmitChar, Next;
  }

  /** The text `t` ends in a character that is in no identifier, or the code ends with it. */
  ghost predicate Closed(u: Unicode, m: Scan, t: string, y: string, rest: string, rev: map<string, string>) {
    || (t != [] && !u.IdentContinue(t[|t| - 1]))
    || (rest == [] && y == Flush(After(m, t), rev))
  }

  lemma {:induction false} LongerNameShows(u: Unicode, z: string, t: string, y: string, rest: string,
      table: map<string, string>, rev: map<string, string>)
    requires Inverse(u, table, rev) && t != [] && !AsciiContinue(t[0]) && z != [] && IdentOnly(u, z) && z[0] == t[0]
    requires Closed(u, Idle, t, y, rest, rev)
    ensures z + (Emit(Idle, t, rev) + y) != t + rest
  {
    hide Emit, Run, Inverse, After, Flush;
    var n := IdentTail(u, t);
    if n == |t| {
      assert t[..n] == t;
      assert Run(Idle, t, rev) == Emit(Idle, t, rev) + Flush(After(Idle, t), rev) by { RunParts(Idle, t, rev); }
      assert u.IdentContinue(t[|t| - 1]);
      Outnumbered(z, t, rev);
      assert t + rest == t;
    } else {
      var a, b := t[..n], t[n..];
      var o := IdentsThen(u, t, table, rev);
      Outnumbered(z, a, rev);
      if z + (Emit(Idle, t, rev) + y) == t + rest {
        assert (z + Run(Idle, a, rev)) + ([b[0]] + o + y) == z + (Emit(Idle, t, rev) + y);
        assert a + (b + rest) == t + rest;
        WordsDiffer(u, z + Run(Idle, a, rev), [b[0]] + o + y, a, b + rest);
      }
    }
  }

  /** A word that became another shows, whatever is written after it. */
  lemma {:induction false} NameShows(u: Unicode, w: string, k: string, t: string, y: string, rest: string,
      table: map<string, string>, rev: map<string, string>)
    requires Inverse(u, table, rev) && t != [] && !AsciiContinue(t[0]) && AllContinue(w) && IdentOnly(u, k) && k != w
    requires Closed(u, Idle, t, y, rest, rev)
    ensures k + (Emit(Idle, t, rev) + y) != w + (t + rest)
  {
    var o := Emit(Idle, t, rev) + y;
    assert o[0] == t[0];
    hide Emit, Inverse, Closed;
    assert (k + o)[|k|] == o[0];
    assert |k| < |w| ==> (w + (t + rest))[|k|] == w[|k|];
    if k + o == w + (t + rest) {
      if |k| >= |w| {
        assert k[..|w|] == (k + o)[..|w|] == w;
        var z := k[|w|..];
        assert k == w + z;
        assert w + (z + o) == w + (t + rest);
        SamePrefix(w, z + o, t + rest);
        assert z != [] && z[0] == (z + o)[0];
        LongerNameShows(u, z, t, y, rest, table, rev);
      }
    }
  }

  /** A text that is not quiet does not come back. */
  lemma {:induction false} LoudShows(u: Unicode, m: Scan, t: string, y: string, rest: string,
      table: map<string, string>, rev: map<string, string>)
    requires Inverse(u, table, rev) && !Quiet(m, t, rev) && (m.Word? ==> AllContinue(m.read))
    requires Closed(u, m, t, y, rest, rev)
    ensures Emit(m, t, rev) + y != Pending(m) + (t + rest)
    decreases |t|
  {
    hide EmitChar, Next, Inverse, Pending, Closed, AllContinue, Quiet;
    QuietSteps(m, t, rev);
    var c := t[0];
    ClosedStep(u, m, t, y, rest, rev);
    if EndsWord(m, c) && Original(rev, m.read) != m.read {
      FirstLoud(u, m, t, y, rest, table, rev);
    } else {
      StillContinues(m, c);
      LoudShows(u, Next(m, c), t[1..], y, rest, table, rev);
      LoudLater(m, t, y, rest, rev);
    }
  }

  lemma {:induction false} QuietSteps(m: Scan, t: string, rev: map<string, string>)
    requires !Quiet(m, t, rev)
    ensures t != []
    ensures (EndsWord(m, t[0]) && Original(rev, m.read) != m.read) || !Quiet(Next(m, t[0]), t[1..], rev)
  {
  }

  lemma StillContinues(m: Scan, c: char)
    requires m.Word? ==> AllContinue(m.read)
    ensures Next(m, c).Word? ==> AllContinue(Next(m, c).read)
  {
  }

  lemma {:induction false} FirstLoud(u: Unicode, m: Scan, t: string, y: string, rest: string,
      table: map<string, string>, rev: map<string, string>)
    requires Inverse(u, table, rev) && t != [] && EndsWord(m, t[0]) && AllContinue(m.read)
    requires Original(rev, m.read) != m.read && Closed(u, Idle, t, y, rest, rev)
    ensures Emit(m, t, rev) + y != Pending(m) + (t + rest)
  {
    var c := t[0];
    assert Next(m, c) == Next(Idle, c) && EmitChar(m, c, rev) == rev[m.read] + EmitChar(Idle, c, rev);
    hide EmitChar, Next, Inverse, Closed;
    assert Emit(m, t, rev) + y == rev[m.read] + (Emit(Idle, t, rev) + y);
    RevIdent(u, table, rev, m.read);
    NameShows(u, m.read, rev[m.read], t, y, rest, table, rev);
  }

  lemma {:induction false} LoudLater(m: Scan, t: string, y: string, rest: string, rev: map<string, string>)
    requires t != [] && (EndsWord(m, t[0]) ==> Original(rev, m.read) == m.read)
    requires Emit(Next(m, t[0]), t[1..], rev) + y != Pending(Next(m, t[0])) + (t[1..] + rest)
    ensures Emit(m, t, rev) + y != Pending(m) + (t + rest)
  {
    hide EmitChar, Next, Pending, Emit;
    var c, n := t[0], Next(m, t[0]);
    QuietChar(m, c, rev);
    EmitCons(m, t, y, rest, rev);
    StaysDifferent(EmitChar(m, c, rev), Pending(n), Pending(m), [c], Emit(n, t[1..], rev) + y, t[1..] + rest);
  }

  lemma {:induction false} EmitCons(m: Scan, t: string, y: string, rest: string, rev: map<string, string>)
    requires t != []
    ensures Emit(m, t, rev) + y == EmitChar(m, t[0], rev) + (Emit(Next(m, t[0]), t[1..], rev) + y)
    ensures t + rest == [t[0]] + (t[1..] + rest)
  {
    hide EmitChar, Next;
  }

  lemma StaysDifferent(e: string, p: string, q: string, c: string, x: string, rest: string)
    requires e + p == q + c && x != p + rest
    ensures e + x != q + (c + rest)
  {
    Join(e, p, q, c, p + rest, rest);
    SamePrefix(e, x, p + rest);
  }

  lemma {:induction false} ClosedStep(u: Unicode, m: Scan, t: string, y: string, rest: string, rev: map<string, string>)
    requires Closed(u, m, t, y, rest, rev) && t != []
    ensures EndsWord(m, t[0]) ==> Closed(u, Idle, t, y, rest, rev)
    ensures !Quiet(Next(m, t[0]), t[1..], rev) ==> Closed(u, Next(m, t[0]), t[1..], y, rest, rev)
  {
  }

  lemma RevIdent(u: Unicode, table: map<string, string>, rev: map<string, string>, w: string)
    requires Inverse(u, table, rev) && w in rev
    ensures IdentOnly(u, rev[w])
  {
  }

  // ----- the exact condition

  /** What is written for text that starts outside identifiers starts with the same character. */
  lemma {:induction false} BackHead(u: Unicode, m: Scan, s: string, table: map<string, string>,
      rev: map<string, string>)
    requires !m.Word? && (s == [] || !u.IdentContinue(s[0]))
    ensures var b := Back(u, m, s, table, rev); if s == [] then b == [] else b != [] && b[0] == s[0]
  {
    if s != [] {
      var t := s[..TokenLen(u, s)];
      assert KindOf(u, s) != Ident && KindOf(u, s) != Number;
      HeadNotTail(u, s);
      EmitHead(m, t, rev);
    }
  }

  lemma {:induction false} EmitHead(m: Scan, t: string, rev: map<string, string>)
    requires !m.Word? && t != [] && !AsciiContinue(t[0])
    ensures Emit(m, t, rev) != [] && Emit(m, t, rev)[0] == t[0]
  {
  }

  /** An identifier comes back if and only if it is met between words or its name is itself. */
  lemma {:induction false} IdentExact(u: Unicode, m: Scan, s: string, table: map<string, string>,
      rev: map<string, string>)
    requires s != [] && KindOf(u, s) == Ident && Between(m) && Inverse(u, table, rev)
    requires Renamed(u, s) ==> s[..TokenLen(u, s)] in table
    ensures var t, rest, turn := s[..TokenLen(u, s)], s[TokenLen(u, s)..], TurnOf(u, m, s, table, rev);
      Back(u, m, s, table, rev) == Pending(m) + s <==>
        (m.Idle? || m.Slash? || (Renamed(u, s) ==> table[t] == t))
        && Back(u, turn.scan, rest, table, rev) == Pending(turn.scan) + rest
  {
    hide KindOf, TokenLen, Renamed, Inverse, Between, TurnOf, RenderToken;
    var n := TokenLen(u, s);
    var t, rest, w, turn := s[..n], s[n..], RenderToken(u, s, table), TurnOf(u, m, s, table, rev);
    var b := Back(u, turn.scan, rest, table, rev);
    IdentParts(u, m, s, table, rev);
    BackHead(u, turn.scan, rest, table, rev);
    assert Back(u, m, s, table, rev) == turn.emitted + b;
    hide Back;
    if m.Idle? || m.Slash? {
      IdentFree(u, m, s, table, rev);
      SamePrefix(t, b, rest);
    } else {
      EmittedWord(u, m, s, table, rev);
      WordsCancel(u, Pending(m), w, b, t, rest);
      RenderedSame(u, s, table);
    }
  }

  lemma {:induction false} IdentParts(u: Unicode, m: Scan, s: string, table: map<string, string>,
      rev: map<string, string>)
    requires s != [] && KindOf(u, s) == Ident && Between(m) && Inverse(u, table, rev)
    requires Renamed(u, s) ==> s[..TokenLen(u, s)] in table
    ensures var t, rest := s[..TokenLen(u, s)], s[TokenLen(u, s)..];
      && s == t + rest && IdentOnly(u, t) && IdentOnly(u, RenderToken(u, s, table))
      && (rest == [] || !u.IdentContinue(rest[0])) && !TurnOf(u, m, s, table, rev).scan.Word?
  {
    hide KindOf, TokenLen, Renamed, Inverse, RenderToken;
    var w := RenderToken(u, s, table);
    IdentBreaks(u, s, s[TokenLen(u, s)..]);
    IdentChars(u, s);
    RenderedWord(u, s, table, rev);
    ContinueIsIdent(u, w);
    if !m.Idle? && !m.Slash? && !m.Word? { WordPasses(m, w, rev); }
  }

  lemma WordsCancel(u: Unicode, p: string, w: string, b: string, t: string, rest: string)
    requires IdentOnly(u, w) && IdentOnly(u, t)
    requires (b == [] || !u.IdentContinue(b[0])) && (rest == [] || !u.IdentContinue(rest[0]))
    ensures (p + w) + b == p + (t + rest) <==> w == t && b == rest
  {
    assert (p + w) + b == p + (w + b);
    SamePrefix(p, w + b, t + rest);
    if w + b == t + rest { WordsDiffer(u, w, b, t, rest); }
    SamePrefix(t, b, rest);
  }

  lemma RenderedSame(u: Unicode, s: string, table: map<string, string>)
    requires s != [] && (Renamed(u, s) ==> s[..TokenLen(u, s)] in table)
    ensures RenderToken(u, s, table) == s[..TokenLen(u, s)] <==>
            (Renamed(u, s) ==> table[s[..TokenLen(u, s)]] == s[..TokenLen(u, s)])
  {
    hide KindOf, TokenLen, Renamed;
  }

  lemma IdentFree(u: Unicode, m: Scan, s: string, table: map<string, string>, rev: map<string, string>)
    requires s != [] && KindOf(u, s) == Ident && (m.Idle? || m.Slash?)
    ensures TurnOf(u, m, s, table, rev) == Turn(s[..TokenLen(u, s)], Idle) && Pending(m) == []
  {
    hide KindOf, TokenLen, Renamed;
  }

  lemma EmittedWord(u: Unicode, m: Scan, s: string, table: map<string, string>, rev: map<string, string>)
    requires s != [] && KindOf(u, s) == Ident && !m.Idle? && !m.Slash?
    ensures TurnOf(u, m, s, table, rev).emitted == Pending(m) + RenderToken(u, s, table)
  {
    hide KindOf, TokenLen, Renamed, RenderToken;
  }

  lemma ContinueIsIdent(u: Unicode, w: string)
    requires AllContinue(w)
    ensures IdentOnly(u, w)
  {
  }

  /** Any other token comes back if and only if it is quiet. */
  lemma {:induction false} OtherExact(u: Unicode, m: Scan, s: string, table: map<string, string>,
      rev: map<string, string>)
    requires s != [] && KindOf(u, s) != Ident && Between(m) && Inverse(u, table, rev)
    ensures var t, rest, turn := s[..TokenLen(u, s)], s[TokenLen(u, s)..], TurnOf(u, m, s, table, rev);
      Back(u, m, s, table, rev) == Pending(m) + s <==>
        Quiet(m, t, rev) && Back(u, turn.scan, rest, table, rev) == Pending(turn.scan) + rest
  {
    var n := TokenLen(u, s);
    var t, rest, turn := s[..n], s[n..], TurnOf(u, m, s, table, rev);
    var b := Back(u, turn.scan, rest, table, rev);
    assert s == t + rest;
    assert turn == Turn(Emit(m, t, rev), After(m, t));
    if Quiet(m, t, rev) {
      hide KindOf, TokenLen, IsReserved, TurnOf, Emit, Quiet, After, Pending;
      QuietEmits(m, t, rev);
      Same(Emit(m, t, rev), Pending(After(m, t)), Pending(m), t, b, rest);
    } else {
      LoudToken(u, m, s, b, table, rev);
    }
  }

  lemma Same(e: string, p: string, q: string, t: string, b: string, rest: string)
    requires e + p == q + t
    ensures e + b == q + (t + rest) <==> b == p + rest
  {
    Join(e, p, q, t, p + rest, rest);
    SamePrefix(e, b, p + rest);
  }

  lemma {:induction false} LoudToken(u: Unicode, m: Scan, s: string, b: string, table: map<string, string>,
      rev: map<string, string>)
    requires s != [] && KindOf(u, s) != Ident && Between(m) && Inverse(u, table, rev)
    requires var t := s[..TokenLen(u, s)]; !Quiet(m, t, rev) && (TokenLen(u, s) == |s| ==> b == Flush(After(m, t), rev))
    ensures Emit(m, s[..TokenLen(u, s)], rev) + b != Pending(m) + s
  {
    hide Emit, Flush, After, Inverse, Quiet, KindOf, TokenLen;
    var n := TokenLen(u, s);
    var t, rest := s[..n], s[n..];
    NumberQuiet(u, m, s, rev);
    HeadNotTail(u, s);
    FirstFlush(u, m, t, table, rev);
    var m' := if m.Word? then Idle else m;
    PlainQuiet(u, m', s, rev);
    if n < |s| { TokenLast(u, s); }
    assert Closed(u, m', t, b, rest, rev);
    LoudShows(u, m', t, b, rest, table, rev);
    assert s == t + rest;
    LaterLoud(Pending(m), Emit(m', t, rev), b, t + rest);
  }

  lemma LaterLoud(p: string, e: string, b: string, x: string)
    requires e + b != [] + x
    ensures (p + e) + b != p + x
  {
    assert [] + x == x;
    assert (p + e) + b == p + (e + b);
    SamePrefix(p, e + b, x);
  }

  lemma {:induction false} NumberQuiet(u: Unicode, m: Scan, s: string, rev: map<string, string>)
    requires s != [] && Between(m)
    ensures KindOf(u, s) == Number ==> Quiet(m, s[..TokenLen(u, s)], rev)
  {
    hide Quiet, TokenLen;
    if KindOf(u, s) == Number {
      NumberShape(u, s);
      NumberAfter(m, s[..TokenLen(u, s)], rev);
    }
  }

  /** A literal's word that is open in front of the token is written as it is. */
  lemma {:induction false} FirstFlush(u: Unicode, m: Scan, t: string, table: map<string, string>,
      rev: map<string, string>)
    requires t != [] && !AsciiContinue(t[0]) && Between(m) && Inverse(u, table, rev)
    ensures var m' := if m.Word? then Idle else m;
      Emit(m, t, rev) == Pending(m) + Emit(m', t, rev) && After(m, t) == After(m', t)
      && Quiet(m, t, rev) == Quiet(m', t, rev)
  {
    if m.Word? {
      NotAKey(u, table, rev, m.read);
      assert Next(m, t[0]) == Next(Idle, t[0]) && EmitChar(m, t[0], rev) == m.read + EmitChar(Idle, t[0], rev);
      hide Next, EmitChar;
    }
  }

  lemma {:induction false} PlainQuiet(u: Unicode, m: Scan, s: string, rev: map<string, string>)
    requires s != [] && !m.Word?
    ensures KindOf(u, s) == Plain ==> Quiet(m, s[..TokenLen(u, s)], rev)
  {
    if KindOf(u, s) == Plain { assert s[..1][1..] == []; }
  }

  lemma {:induction false} Exact(u: Unicode, m: Scan, s: string, table: map<string, string>, rev: map<string, string>)
    requires (Between(m) || s == []) && Inverse(u, table, rev) && Named(u, s, table)
    ensures Back(u, m, s, table, rev) == Pending(m) + s <==> Restorable(u, m, s, table, rev)
    decreases |s|
  {
    hide KindOf, TokenLen, Renamed, Inverse, Between, TurnOf, Quiet, Pending, Back, Render, Follows, RenderToken;
    if s == [] {
      ExactEnd(u, m, table, rev);
    } else {
      var turn := TurnOf(u, m, s, table, rev);
      var rest := s[TokenLen(u, s)..];
      RenderFollows(u, rest, table, rev);
      if KindOf(u, s) == Ident {
        IdentTurn(u, m, s, table, rev, Render(u, rest, table));
        IdentExact(u, m, s, table, rev);
      } else {
        OtherTurn(u, m, s, table, rev, Render(u, rest, table));
        OtherExact(u, m, s, table, rev);
      }
      Exact(u, turn.scan, rest, table, rev);
    }
  }

  lemma {:induction false} ExactEnd(u: Unicode, m: Scan, table: map<string, string>, rev: map<string, string>)
    ensures Back(u, m, [], table, rev) == Pending(m) + [] <==> Restorable(u, m, [], table, rev)
  {
    assert Pending(m) + [] == Pending(m);
  }

  lemma TableInverse(u: Unicode, names: Names, rev: map<string, string>)
    requires ValidNames(names) && IdentKeys(u, names) && ReverseOf(names.table, names.table.Keys, rev)
    ensures Inverse(u, names.table, rev)
  {
    hide Decimal, IdentOnly;
    ReverseIsInverse(names, rev);
    forall k | k in names.table ensures IsPlaceholder(names.table[k]) {
      var n: nat :| n < names.next && names.table[k] == Placeholder(n);
    }
  }

  /**
   The round trip, exactly, for all code. Anonymizing from any name table the anonymizer can have
   built, and de-anonymizing with the reverse map, gives the code back if and only if it is restorable.
   */
  lemma {:induction false} RoundTrip(u: Unicode, code: string, before: Names, rev: map<string, string>)
    requires ValidNames(before) && IdentKeys(u, before)
    requires var after := NamesAfter(u, code, before); ReverseOf(after.table, after.table.Keys, rev)
    ensures var table := NamesAfter(u, code, before).table;
      Restore(Normal, Render(u, code, table), rev) == code <==> Restorable(u, Idle, code, table, rev)
  {
    hide NamesAfter, Render, Restore, Restorable, Back;
    var after := NamesAfter(u, code, before);
    NamesStayValid(u, code, before);
    KeysStayIdents(u, code, before);
    AllNamed(u, code, before);
    TableInverse(u, after, rev);
    RestoreRender(u, code, after.table, rev);
    Exact(u, Idle, code, after.table, rev);
    assert Pending(Idle) + code == code;
  }

  // ----- ordinary code

  /** No line comment holds a carriage return that the de-anonymizer would take for its end. */
  predicate CleanComments(u: Unicode, s: string)
    decreases |s|
  {
    s == [] ||
    var n := TokenLen(u, s);
    (KindOf(u, s) == LineComment ==> CleanLine(s[2..n], n == |s|)) && CleanComments(u, s[n..])
  }

  /** The leading digits of a numeric literal. */
  function DigitPrefix(t: string): (k: nat)
    ensures k <= |t| && forall i :: 0 <= i < k ==> IsDigit(t[i])
    ensures k < |t| ==> !IsDigit(t[k])
  {
    if t != [] && IsDigit(t[0]) then 1 + DigitPrefix(t[1..]) else 0
  }

  /** A literal with a letter or underscore, or one written directly after such a literal. */
  predicate Glues(u: Unicode, glued: bool, s: string)
    requires s != []
  {
    var t := s[..TokenLen(u, s)];
    KindOf(u, s) == Number && (glued || DigitPrefix(t) < |t|)
  }

  /** No identifier whose name changes is written directly after a literal with a letter or underscore. */
  predicate Separated(u: Unicode, glued: bool, s: string, table: map<string, string>)
    decreases |s|
  {
    s == [] ||
    var t := s[..TokenLen(u, s)];
    (glued && Renamed(u, s) && t in table ==> table[t] == t)
    && Separated(u, Glues(u, glued, s), s[TokenLen(u, s)..], table)
  }

  // ----- comments and quoted literals

  /** A carriage return comes only just before the newline, or as the very last character of the text. */
  predicate CleanLine(b: string, last: bool) {
    b == [] || ((b[0] == '\r' ==> if |b| > 1 then b[1] == '\n' else last) && CleanLine(b[1..], last))
  }

  /** The rest of a line comment: up to the newline, or to the end of the text. */
  predicate LineBody(b: string, last: bool) {
    if b == [] then last else if b[0] == '\n' then |b| == 1 else LineBody(b[1..], last)
  }

  predicate BlockBody(b: string, last: bool) {
    if b == [] then last else if b[0] == '*' && |b| > 1 && b[1] == '/' then |b| == 2 else BlockBody(b[1..], last)
  }

  predicate QuoteBody(b: string, q: char, last: bool) {
    if b == [] then last
    else if b[0] == '\\' then (if |b| == 1 then last else QuoteBody(b[2..], q, last))
    else if b[0] == q then |b| == 1
    else QuoteBody(b[1..], q, last)
  }

  lemma {:induction false} LineTailBody(s: string)
    ensures LineBody(s[..LineTail(s)], LineTail(s) == |s|)
  {
    if s != [] && s[0] != '\n' {
      LineTailBody(s[1..]);
      assert s[..LineTail(s)][1..] == s[1..][..LineTail(s[1..])];
    }
  }

  lemma {:induction false} BlockTailBody(s: string)
    ensures BlockBody(s[..BlockTail(s)], BlockTail(s) == |s|)
  {
    if s != [] && !(s[0] == '*' && |s| > 1 && s[1] == '/') {
      BlockTailBody(s[1..]);
      assert s[..BlockTail(s)][1..] == s[1..][..BlockTail(s[1..])];
    }
  }

  lemma {:induction false} QuoteTailBody(s: string, q: char)
    requires q != '\\'
    ensures QuoteBody(s[..QuoteTail(s, q)], q, QuoteTail(s, q) == |s|)
  {
    if s != [] && s[0] == '\\' {
      if |s| > 1 {
        QuoteTailBody(s[2..], q);
        assert s[..QuoteTail(s, q)][2..] == s[2..][..QuoteTail(s[2..], q)];
      }
    } else if s != [] && s[0] != q {
      QuoteTailBody(s[1..], q);
      assert s[..QuoteTail(s, q)][1..] == s[1..][..QuoteTail(s[1..], q)];
    }
  }

  /** Read quietly from `m` on, and idle again at the end unless the code ends there. */
  ghost predicate Passes(m: Scan, b: string, last: bool, rev: map<string, string>) {
    Quiet(m, b, rev) && !After(m, b).Word? && (last || After(m, b).Idle?)
  }

  lemma {:induction false} LinePasses(b: string, last: bool, rev: map<string, string>)
    requires LineBody(b, last) && CleanLine(b, last)
    ensures Passes(Line, b, last, rev)
  {
    if b != [] {
      if b[0] == '\n' {
        assert b[1..] == [];
      } else if b[0] == '\r' {
        if |b| == 1 {
          assert b[1..] == [];
        } else {
          assert LineBody(b[1..], last) && b[1] == '\n';
          assert b[1..] == ['\n'] && ['\n'][1..] == [];
        }
      } else {
        LinePasses(b[1..], last, rev);
      }
    }
  }

  lemma {:induction false} BlockPasses(m: Scan, b: string, last: bool, rev: map<string, string>)
    requires BlockBody(b, last) && (m.Block? || (m.Star? && (b == [] || b[0] != '/')))
    ensures Passes(m, b, last, rev)
    decreases |b|
  {
    if b != [] {
      if b[0] == '*' && |b| > 1 && b[1] == '/' {
        assert b[1..] == ['/'] && ['/'][1..] == [];
      } else {
        BlockPasses(Next(m, b[0]), b[1..], last, rev);
      }
    }
  }

  lemma {:induction false} QuotePasses(b: string, q: char, last: bool, rev: map<string, string>)
    requires QuoteBody(b, q, last) && q != '\\'
    ensures Passes(Quote(q), b, last, rev)
  {
    if b != [] {
      if b[0] == '\\' {
        if |b| == 1 {
          assert b[1..] == [];
        } else {
          QuotePasses(b[2..], q, last, rev);
          assert b[1..][1..] == b[2..];
        }
      } else if b[0] == q {
        assert b[1..] == [];
      } else {
        QuotePasses(b[1..], q, last, rev);
      }
    }
  }

  lemma {:induction false} CommentPasses(u: Unicode, s: string, rev: map<string, string>)
    requires s != [] && (KindOf(u, s) == LineComment || KindOf(u, s) == BlockComment)
    requires KindOf(u, s) == LineComment ==> CleanLine(s[2..TokenLen(u, s)], TokenLen(u, s) == |s|)
    ensures Passes(Idle, s[..TokenLen(u, s)], TokenLen(u, s) == |s|, rev)
  {
    var n := TokenLen(u, s);
    var t, b := s[..n], s[2..n];
    assert t[1..][1..] == b && t[1..][0] == t[1] && b == s[2..][..n - 2];
    if KindOf(u, s) == LineComment {
      LineTailBody(s[2..]);
      LinePasses(b, n == |s|, rev);
    } else {
      BlockTailBody(s[2..]);
      BlockPasses(Block, b, n == |s|, rev);
    }
    hide Quiet, After;
    PassesFrom(t, b, n == |s|, rev);
  }

  lemma {:induction false} PassesFrom(t: string, b: string, last: bool, rev: map<string, string>)
    requires |t| >= 2 && t[0] == '/' && t[1..][1..] == b
    requires (t[1] == '/' && Passes(Line, b, last, rev)) || (t[1] == '*' && Passes(Block, b, last, rev))
    ensures Passes(Idle, t, last, rev)
  {
  }

  lemma {:induction false} LiteralPasses(u: Unicode, s: string, rev: map<string, string>)
    requires s != [] && (KindOf(u, s) == StringLit || KindOf(u, s) == CharLit)
    ensures Passes(Idle, s[..TokenLen(u, s)], TokenLen(u, s) == |s|, rev)
  {
    var n := TokenLen(u, s);
    var t, b := s[..n], s[1..n];
    assert t[1..] == b && b == s[1..][..n - 1];
    QuoteTailBody(s[1..], s[0]);
    QuotePasses(b, s[0], n == |s|, rev);
  }

  /** In step: between words, and not taken in by a slash. */
  ghost predicate InStep(m: Scan, s: string) {
    Between(m) && (m.Idle? || m.Word? || (m.Slash? && (s == [] || (s[0] != '/' && s[0] != '*'))))
  }

  lemma {:induction false} OtherInStep(u: Unicode, m: Scan, s: string, table: map<string, string>,
      rev: map<string, string>)
    requires s != [] && KindOf(u, s) != Ident && KindOf(u, s) != Number && InStep(m, s) && Inverse(u, table, rev)
    requires KindOf(u, s) == LineComment ==> CleanLine(s[2..TokenLen(u, s)], TokenLen(u, s) == |s|)
    ensures var t := s[..TokenLen(u, s)];
      Quiet(m, t, rev) && !After(m, t).Word? && (TokenLen(u, s) < |s| ==> InStep(After(m, t), s[TokenLen(u, s)..]))
  {
    var n := TokenLen(u, s);
    var t := s[..n];
    HeadNotTail(u, s);
    AsIdle(u, m, t, table, rev);
    match KindOf(u, s)
    case LineComment => CommentPasses(u, s, rev);
    case BlockComment => CommentPasses(u, s, rev);
    case StringLit => LiteralPasses(u, s, rev);
    case CharLit => LiteralPasses(u, s, rev);
    case Plain => PlainPasses(u, s, rev);
  }

  lemma {:induction false} PlainPasses(u: Unicode, s: string, rev: map<string, string>)
    requires s != [] && KindOf(u, s) == Plain
    ensures TokenLen(u, s) == 1 && Quiet(Idle, s[..1], rev) && !After(Idle, s[..1]).Word?
            && InStep(After(Idle, s[..1]), s[1..])
  {
    assert s[..1][1..] == [];
  }

  lemma {:induction false} AsIdle(u: Unicode, m: Scan, t: string, table: map<string, string>, rev: map<string, string>)
    requires t != [] && !AsciiContinue(t[0]) && InStep(m, t) && Inverse(u, table, rev)
    ensures After(m, t) == After(Idle, t) && Quiet(m, t, rev) == Quiet(Idle, t, rev)
  {
    FirstFlush(u, m, t, table, rev);
  }

  lemma {:induction false} NumberInStep(m: Scan, t: string)
    requires (m.Idle? || m.Slash? || m.Word?) && t != [] && AllContinue(t)
    ensures After(m, t).Idle? || After(m, t).Word?
    ensures After(m, t).Word? <==> m.Word? || DigitPrefix(t) < |t|
    decreases |t|
  {
    var n := Next(m, t[0]);
    assert n.Idle? || n.Word?;
    if |t| == 1 { assert t[1..] == []; } else { NumberInStep(n, t[1..]); }
  }

  /** For ordinary code only identifiers directly after literals matter. */
  lemma {:induction false} OrdinaryExact(u: Unicode, m: Scan, s: string, table: map<string, string>,
      rev: map<string, string>)
    requires CleanComments(u, s) && Inverse(u, table, rev) && (if s == [] then !m.Word? || Between(m) else InStep(m, s))
    ensures Restorable(u, m, s, table, rev) <==> Separated(u, m.Word?, s, table)
    decreases |s|
  {
    hide KindOf, TokenLen, IsReserved, Inverse, Quiet, After, Glues, TurnOf;
    if s == [] {
      if m.Word? { NotAKey(u, table, rev, m.read); }
    } else {
      var n := TokenLen(u, s);
      var turn := TurnOf(u, m, s, table, rev);
      OrdinaryStep(u, m, s, table, rev);
      OrdinaryExact(u, turn.scan, s[n..], table, rev);
    }
  }

  lemma {:induction false} OrdinaryStep(u: Unicode, m: Scan, s: string, table: map<string, string>,
      rev: map<string, string>)
    requires s != [] && InStep(m, s) && Inverse(u, table, rev)
    requires KindOf(u, s) == LineComment ==> CleanLine(s[2..TokenLen(u, s)], TokenLen(u, s) == |s|)
    ensures var turn, rest := TurnOf(u, m, s, table, rev), s[TokenLen(u, s)..];
      && (if rest == [] then !turn.scan.Word? || Between(turn.scan) else InStep(turn.scan, rest))
      && turn.scan.Word? == Glues(u, m.Word?, s)
      && (KindOf(u, s) != Ident ==> Quiet(m, s[..TokenLen(u, s)], rev))
  {
    var n := TokenLen(u, s);
    var t := s[..n];
    if KindOf(u, s) == Number {
      NumberShape(u, s);
      hide KindOf, TokenLen, Renamed, Quiet, After, Inverse;
      NumberAfter(m, t, rev);
      NumberInStep(m, t);
    } else if KindOf(u, s) != Ident {
      hide TokenLen, Renamed, Quiet, After, Inverse;
      OtherInStep(u, m, s, table, rev);
    }
  }

  /**
   For code without stray carriage returns in line comments, the round trip holds if and only if no
   identifier whose name changes directly follows a numeric literal that has a letter or underscore
   in it (or a run of adjacent literals one of which has).
   */
  lemma {:induction false} RoundTripOrdinary(u: Unicode, code: string, before: Names, rev: map<string, string>)
    requires ValidNames(before) && IdentKeys(u, before) && CleanComments(u, code)
    requires var after := NamesAfter(u, code, before); ReverseOf(after.table, after.table.Keys, rev)
    ensures var table := NamesAfter(u, code, before).table;
      Restore(Normal, Render(u, code, table), rev) == code <==> Separated(u, false, code, table)
  {
    hide NamesAfter, Render, Restore, Restorable, Separated, CleanComments;
    var after := NamesAfter(u, code, before);
    NamesStayValid(u, code, before);
    KeysStayIdents(u, code, before);
    TableInverse(u, after, rev);
    RoundTrip(u, code, before, rev);
    OrdinaryExact(u, Idle, code, after.table, rev);
  }

  // ----- a condition on the code alone

  /** No word that ends within `t` looks like a placeholder. */
  ghost predicate NoPlaceholders(m: Scan, t: string)
    decreases |t|
  {
    t == [] || ((EndsWord(m, t[0]) ==> !IsPlaceholder(m.read)) && NoPlaceholders(Next(m, t[0]), t[1..]))
  }

  /**
   Every renamable identifier is met between words, and no word that the second lexer meets elsewhere
   looks like a placeholder.
   */
  ghost predicate WellSpaced(u: Unicode, m: Scan, s: string)
    decreases |s|
  {
    if s == [] then m.Word? ==> !IsPlaceholder(m.read)
    else
      var t := s[..TokenLen(u, s)];
      && (if KindOf(u, s) == Ident then Renamed(u, s) ==> m.Idle? || m.Slash? else NoPlaceholders(m, t))
      && WellSpaced(u, if KindOf(u, s) == Ident && (m.Idle? || m.Slash? || m.Word?) then Idle
          else After(m, t), s[TokenLen(u, s)..])
  }

  lemma {:induction false} UnnamedQuiet(u: Unicode, m: Scan, t: string, table: map<string, string>,
      rev: map<string, string>)
    requires Inverse(u, table, rev) && NoPlaceholders(m, t)
    ensures Quiet(m, t, rev)
    decreases |t|
  {
    hide IsPlaceholder, Next;
    if t != [] { UnnamedQuiet(u, Next(m, t[0]), t[1..], table, rev); }
  }

  lemma {:induction false} WellSpacedRestorable(u: Unicode, m: Scan, s: string, table: map<string, string>,
      rev: map<string, string>)
    requires Inverse(u, table, rev) && WellSpaced(u, m, s)
    ensures Restorable(u, m, s, table, rev)
    decreases |s|
  {
    hide KindOf, TokenLen, Renamed, IsPlaceholder, Quiet, NoPlaceholders, After;
    if s != [] {
      if KindOf(u, s) != Ident { UnnamedQuiet(u, m, s[..TokenLen(u, s)], table, rev); }
      WellSpacedRestorable(u, TurnOf(u, m, s, table, rev).scan, s[TokenLen(u, s)..], table, rev);
    }
  }

  /** Well-spaced code always comes back, whatever the names. */
  lemma {:induction false} RoundTripWellSpaced(u: Unicode, code: string, before: Names, rev: map<string, string>)
    requires ValidNames(before) && IdentKeys(u, before) && WellSpaced(u, Idle, code)
    requires var after := NamesAfter(u, code, before); ReverseOf(after.table, after.table.Keys, rev)
    ensures Restore(Normal, Render(u, code, NamesAfter(u, code, before).table), rev) == code
  {
    hide NamesAfter, Render, Restore, Restorable, WellSpaced;
    var after := NamesAfter(u, code, before);
    NamesStayValid(u, code, before);
    KeysStayIdents(u, code, before);
    TableInverse(u, after, rev);
    RoundTrip(u, code, before, rev);
    WellSpacedRestorable(u, Idle, code, after.table, rev);
  }

  // ----- the two ways it fails

  /** `1L$` is anonymized to `1Lid_0`, in which the second lexer sees the identifier `Lid_0`. */
  lemma {:induction false} GluedLiteralFails(u: Unicode, rev: map<string, string>)
    requires ReverseOf(map["$" := "id_0"], {"$"}, rev)
    ensures var code, before := "1L$", Names(map[], 0);
      && CleanComments(u, code)
      && NamesAfter(u, code, before).table == map["$" := "id_0"]
      && Restore(Normal, Render(u, code, map["$" := "id_0"]), rev) != code
  {
    hide KindOf, TokenLen, Glues, Decimal, IsReserved, Restore, Render;
    var code, before, table := "1L$", Names(map[], 0), map["$" := "id_0"];
    DollarToken(u);
    LiteralToken(u);
    FirstPlaceholder();
    assert NamesAfter(u, code, before) == NamesAfter(u, "$", before) == Names(table, 1);
    assert CleanComments(u, code) by { assert CleanComments(u, "$"); }
    assert !Separated(u, true, "$", table);
    RoundTripOrdinary(u, code, before, rev);
  }

  lemma LiteralToken(u: Unicode)
    ensures var code := "1L$";
            KindOf(u, code) == Number && TokenLen(u, code) == 2 && Glues(u, false, code) && code[2..] == "$"
  {
    var code := "1L$";
    assert code[1..] == "L$" && "L$"[0..] == "L$" && "L$"[1..] == "$" && code[2..] == "$" && code[..2] == "1L";
    assert DigitTail("L$", false) == 0 && SuffixTail("L$") == 1;
    assert DigitPrefix("1L") == 1 by { assert "1L"[1..] == "L"; }
  }

  lemma DollarToken(u: Unicode)
    ensures KindOf(u, "$") == Ident && TokenLen(u, "$") == 1 && Renamed(u, "$")
    ensures "$"[..1] == "$" && "$"[1..] == ""
  {
    assert "$"[..1] == "$" && "$"[1..] == "";
    if IsReserved("$") {
      ReservedLetters("$");
    }
  }

  lemma FirstPlaceholder()
    ensures Placeholder(0) == "id_0"
  {
    assert Decimal(0) == "0";
  }

  lemma CommentToken(u: Unicode)
    ensures var code := "//\rid_0\n$"; KindOf(u, code) == LineComment && TokenLen(u, code) == 8
  {
    var code := "//\rid_0\n$";
    hide LineTail;
    LineTailStep('\r', "id_0\n$");
    LineTailStep('i', "d_0\n$");
    LineTailStep('d', "_0\n$");
    LineTailStep('_', "0\n$");
    LineTailStep('0', "\n$");
    LineTailEnd("$");
    assert code[2..] == "\r" + "id_0\n$" && "id_0\n$" == "i" + "d_0\n$" && "d_0\n$" == "d" + "_0\n$";
    assert "_0\n$" == "_" + "0\n$" && "0\n$" == "0" + "\n$" && "\n$" == "\n" + "$";
  }

  lemma {:induction false} LineTailStep(c: char, rest: string)
    requires c != '\n'
    ensures LineTail([c] + rest) == 1 + LineTail(rest)
  {
    assert ([c] + rest)[1..] == rest;
  }

  lemma {:induction false} LineTailEnd(rest: string)
    ensures LineTail("\n" + rest) == 1
  {
  }

  lemma {:induction false} StrayReturnRenders(u: Unicode)
    ensures var code, table := "//\rid_0\n$", map["$" := "id_0"];
      && NamesAfter(u, code, Names(map[], 0)).table == table
      && Render(u, code, table) == "//\rid_0\nid_0"
  {
    var code, table := "//\rid_0\n$", map["$" := "id_0"];
    hide KindOf, TokenLen, IsReserved, Decimal, LineTail;
    DollarToken(u);
    CommentToken(u);
    FirstPlaceholder();
    assert code[8..] == "$" && code[..8] == "//\rid_0\n";
    assert NamesAfter(u, code, Names(map[], 0)) == NamesAfter(u, "$", Names(map[], 0)) == Names(table, 1);
    assert Render(u, "$", table) == "id_0";
    assert Render(u, code, table) == code[..8] + Render(u, "$", table);
  }

  /** A carriage return inside a line comment ends it for the second lexer only. */
  lemma {:induction false} StrayReturnFails(u: Unicode)
    ensures var code, table := "//\rid_0\n$", map["$" := "id_0"];
      && NamesAfter(u, code, Names(map[], 0)).table == table
      && Restore(Normal, Render(u, code, table), map["id_0" := "$"]) != code
  {
    var code, anonymized, rev := "//\rid_0\n$", "//\rid_0\nid_0", map["id_0" := "$"];
    hide Render, NamesAfter, Restore, Run;
    StrayReturnRenders(u);
    var word, tail := "id_0", "\nid_0";
    RestoreIsRun(Normal, anonymized, rev);
    CommentCutShort(word + tail, rev);
    assert "//\r" + (word + tail) == anonymized;
    WordRead(Idle, word, tail, rev);
    assert ("//\r" + ("$" + Run(Idle, tail, rev)))[3] == '$' && code[3] == 'i';
  }

  lemma {:induction false} CommentCutShort(rest: string, rev: map<string, string>)
    ensures Run(Idle, "//\r" + rest, rev) == "//\r" + Run(Idle, rest, rev)
  {
    hide Run;
    var s := "//\r" + rest;
    TwoChars(Idle, s, rev);
    RunCons(Line, s[2..], rev);
    assert s[2..] == "\r" + rest && ("\r" + rest)[1..] == rest;
    assert "/" + ("/" + ("\r" + Run(Idle, rest, rev))) == "//\r" + Run(Idle, rest, rev);
  }
}
