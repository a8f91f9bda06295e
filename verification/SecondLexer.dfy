/**
 The de-anonymizer as a machine that reads one character at a time, so that a text can be cut
 anywhere. It writes every character as it is read, except that the characters of a word are held
 back until the word ends.
 */
module SecondLexer {
  import opened Anonymizer

  /** `Slash`, `Star` and `Escape` stand for the lexer's looking ahead by one character. */
  datatype Scan = Idle | Slash | Word(read: string) | Line | Block | Star | Quote(q: char) | Escape(q: char)

  /** After a character read between words, outside comments and quotes. */
  function Begin(c: char): Scan {
    if c == '/' then Slash
    else if c == '"' || c == '\'' then Quote(c)
    else if AsciiStart(c) then Word([c])
    else Idle
  }

  function Next(m: Scan, c: char): Scan {
    match m
    case Idle => Begin(c)
    case Slash => if c == '/' then Line else if c == '*' then Block else Begin(c)
    case Word(read) => if AsciiContinue(c) then Word(read + [c]) else Begin(c)
    case Line => if c == '\n' || c == '\r' then Idle else Line
    case Block => if c == '*' then Star else Block
    case Star => if c == '/' then Idle else if c == '*' then Star else Block
    case Quote(q) => if c == '\\' then Escape(q) else if c == q then Idle else Quote(q)
    case Escape(q) => Quote(q)
  }

  function After(m: Scan, s: string): Scan
    decreases |s|
  {
    if s == [] then m else After(Next(m, s[0]), s[1..])
  }

  /** Characters read but not yet written. */
  function Pending(m: Scan): string {
    if m.Word? then m.read else []
  }

  /** `c` ends the word that is being read. */
  predicate EndsWord(m: Scan, c: char) {
    m.Word? && !AsciiContinue(c)
  }

  /** What is written on reading `c`: the word it ends, and `c` itself unless it belongs to a word. */
  function EmitChar(m: Scan, c: char, rev: map<string, string>): string {
    (if EndsWord(m, c) then Original(rev, m.read) else []) + (if Next(m, c).Word? then [] else [c])
  }

  function Emit(m: Scan, s: string, rev: map<string, string>): string
    decreases |s|
  {
    if s == [] then [] else EmitChar(m, s[0], rev) + Emit(Next(m, s[0]), s[1..], rev)
  }

  /** What is still written at the end of the text. */
  function Flush(m: Scan, rev: map<string, string>): string {
    if m.Word? then Original(rev, m.read) else []
  }

  function Run(m: Scan, s: string, rev: map<string, string>): string {
    Emit(m, s, rev) + Flush(After(m, s), rev)
  }

  // ----- texts can be cut anywhere

  lemma {:induction false} AfterAppend(m: Scan, a: string, b: string)
    ensures After(m, a + b) == After(After(m, a), b)
    decreases |a|
  {
    if a == [] {
      assert a + b == b;
    } else {
      assert (a + b)[1..] == a[1..] + b;
      AfterAppend(Next(m, a[0]), a[1..], b);
    }
  }

  lemma {:induction false} EmitAppend(m: Scan, a: string, b: string, rev: map<string, string>)
    ensures Emit(m, a + b, rev) == Emit(m, a, rev) + Emit(After(m, a), b, rev)
    decreases |a|
  {
    hide EmitChar, Next;
    if a == [] {
      assert a + b == b;
    } else {
      assert (a + b)[1..] == a[1..] + b;
      EmitAppend(Next(m, a[0]), a[1..], b, rev);
    }
  }

  lemma {:induction false} RunAppend(m: Scan, a: string, b: string, rev: map<string, string>)
    ensures Run(m, a + b, rev) == Emit(m, a, rev) + Run(After(m, a), b, rev)
  {
    hide Emit, After;
    AfterAppend(m, a, b);
    EmitAppend(m, a, b, rev);
  }

  lemma {:induction false} RunCons(m: Scan, s: string, rev: map<string, string>)
    requires s != []
    ensures Run(m, s, rev) == EmitChar(m, s[0], rev) + Run(Next(m, s[0]), s[1..], rev)
  {
    hide EmitChar, Next;
  }

  // ----- words whose meaning does not change

  /** No word that ends within `t` is the name of something else. */
  predicate Quiet(m: Scan, t: string, rev: map<string, string>)
    decreases |t|
  {
    t == [] || ((EndsWord(m, t[0]) ==> Original(rev, m.read) == m.read) && Quiet(Next(m, t[0]), t[1..], rev))
  }

  lemma QuietChar(m: Scan, c: char, rev: map<string, string>)
    requires EndsWord(m, c) ==> Original(rev, m.read) == m.read
    ensures EmitChar(m, c, rev) + Pending(Next(m, c)) == Pending(m) + [c]
  {
  }

  /** A quiet text is written as it was read. */
  lemma {:induction false} QuietEmits(m: Scan, t: string, rev: map<string, string>)
    requires Quiet(m, t, rev)
    ensures Emit(m, t, rev) + Pending(After(m, t)) == Pending(m) + t
    decreases |t|
  {
    hide EmitChar, Next, Pending;
    if t != [] {
      var n := Next(m, t[0]);
      QuietChar(m, t[0], rev);
      QuietEmits(n, t[1..], rev);
      assert t == [t[0]] + t[1..];
      Join(EmitChar(m, t[0], rev), Pending(n), Pending(m), [t[0]], Emit(n, t[1..], rev) + Pending(After(n, t[1..])),
          t[1..]);
      assert Emit(m, t, rev) + Pending(After(m, t))
             == EmitChar(m, t[0], rev) + (Emit(n, t[1..], rev) + Pending(After(n, t[1..])));
    }
  }

  lemma Join(e: string, p: string, q: string, c: string, x: string, rest: string)
    requires e + p == q + c && x == p + rest
    ensures e + x == q + (c + rest)
  {
    assert e + (p + rest) == (e + p) + rest;
    assert (q + c) + rest == q + (c + rest);
  }

  // ----- the machine is the lexer

  function ScanOf(mode: Mode): Scan {
    match mode
    case Normal => Idle
    case InIdent(read) => Word(read)
    case InLine => Line
    case InBlock => Block
    case InQuote(q) => Quote(q)
  }

  /** What follows a slash that starts no comment is read as if there had been no slash. */
  lemma {:induction false} SlashForgotten(s: string, rev: map<string, string>)
    requires s == [] || (s[0] != '/' && s[0] != '*')
    ensures Run(Slash, s, rev) == Run(Idle, s, rev)
  {
  }

  lemma {:induction false} StarForgotten(s: string, rev: map<string, string>)
    requires s == [] || s[0] != '/'
    ensures Run(Star, s, rev) == Run(Block, s, rev)
  {
  }

  lemma {:induction false} WordEnded(read: string, s: string, rev: map<string, string>)
    requires s == [] || !AsciiContinue(s[0])
    ensures Run(Word(read), s, rev) == Original(rev, read) + Run(Idle, s, rev)
  {
  }

  lemma {:induction false} TwoChars(m: Scan, s: string, rev: map<string, string>)
    requires |s| > 1
    ensures Run(m, s, rev) == EmitChar(m, s[0], rev)
            + (EmitChar(Next(m, s[0]), s[1], rev) + Run(Next(Next(m, s[0]), s[1]), s[2..], rev))
  {
    hide EmitChar, Next, Run;
    RunCons(m, s, rev);
    RunCons(Next(m, s[0]), s[1..], rev);
    assert s[1..][1..] == s[2..];
  }

  lemma {:induction false} RestoreIsRun(mode: Mode, s: string, rev: map<string, string>)
    ensures Restore(mode, s, rev) == Run(ScanOf(mode), s, rev)
    decreases |s|, if mode.InIdent? then 1 else 0
  {
    hide Run;
    if s == [] {
      RunNothing(ScanOf(mode), rev);
    } else {
      RunCons(ScanOf(mode), s, rev);
      match mode
      case Normal => RestoreIdle(s, rev);
      case InIdent(read) => RestoreInWord(read, s, rev);
      case InLine => RestoreIsRun(if s[0] == '\n' || s[0] == '\r' then Normal else InLine, s[1..], rev);
      case InBlock => RestoreInBlock(s, rev);
      case InQuote(q) => RestoreInQuote(q, s, rev);
    }
  }

  lemma {:induction false} RunNothing(m: Scan, rev: map<string, string>)
    ensures Run(m, [], rev) == Flush(m, rev)
  {
  }

  lemma {:induction false} RestoreIdle(s: string, rev: map<string, string>)
    requires s != []
    ensures Restore(Normal, s, rev) == Run(Idle, s, rev)
    decreases |s|, 0, 0
  {
    hide Run;
    RunCons(Idle, s, rev);
    if s[0] == '/' && |s| > 1 && (s[1] == '/' || s[1] == '*') {
      TwoChars(Idle, s, rev);
      RestoreIsRun(if s[1] == '/' then InLine else InBlock, s[2..], rev);
    } else if s[0] == '/' {
      SlashForgotten(s[1..], rev);
      RestoreIsRun(Normal, s[1..], rev);
    } else if s[0] == '"' || s[0] == '\'' {
      RestoreIsRun(InQuote(s[0]), s[1..], rev);
    } else if AsciiStart(s[0]) {
      RestoreIsRun(InIdent(s[..1]), s[1..], rev);
      assert s[..1] == [s[0]];
    } else {
      RestoreIsRun(Normal, s[1..], rev);
    }
  }

  lemma {:induction false} RestoreInWord(read: string, s: string, rev: map<string, string>)
    requires s != []
    ensures Restore(InIdent(read), s, rev) == Run(Word(read), s, rev)
    decreases |s|, 1, 0
  {
    hide Run;
    if AsciiContinue(s[0]) {
      RunCons(Word(read), s, rev);
      RestoreIsRun(InIdent(read + s[..1]), s[1..], rev);
      assert s[..1] == [s[0]];
    } else {
      WordEnded(read, s, rev);
      RestoreIsRun(Normal, s, rev);
    }
  }

  lemma {:induction false} RestoreInBlock(s: string, rev: map<string, string>)
    requires s != []
    ensures Restore(InBlock, s, rev) == Run(Block, s, rev)
    decreases |s|, 0, 0
  {
    hide Run;
    RunCons(Block, s, rev);
    if s[0] == '*' && |s| > 1 && s[1] == '/' {
      TwoChars(Block, s, rev);
      RestoreIsRun(Normal, s[2..], rev);
    } else {
      if s[0] == '*' { StarForgotten(s[1..], rev); }
      RestoreIsRun(InBlock, s[1..], rev);
    }
  }

  lemma {:induction false} RestoreInQuote(q: char, s: string, rev: map<string, string>)
    requires s != []
    ensures Restore(InQuote(q), s, rev) == Run(Quote(q), s, rev)
    decreases |s|, 0, 0
  {
    hide Run;
    RunCons(Quote(q), s, rev);
    if s[0] == '\\' && |s| > 1 {
      TwoChars(Quote(q), s, rev);
      RestoreIsRun(InQuote(q), s[2..], rev);
    } else if s[0] == '\\' {
      RunNothing(Escape(q), rev);
    } else {
      RestoreIsRun(if s[0] == q then Normal else InQuote(q), s[1..], rev);
    }
  }
}
