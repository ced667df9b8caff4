/**
 * PHP's `escapeshellarg` on POSIX systems, and the part of the POSIX shell's
 * token recognition (sections 2.2.1, 2.2.2 and 2.3 of the POSIX Shell Command
 * Language) needed to read its output back: blanks separate words,
 * single quotes preserve every character up to the next single quote, and a
 * backslash outside quotes preserves the next character.
 */
module ShellQuoting {

  datatype Option<T> = None | Some(value: T)

  const Quote: char := '\''
  const Backslash: char := '\\'

  /** Blanks separate words outside quotes. */
  predicate IsBlank(c: char) {
    c == ' ' || c == '\t'
  }

  /**
   * Characters that stand for themselves outside quotes and never start an
   * operator, an expansion or a comment (a conservative subset of the
   * characters the shell takes literally).
   */
  predicate IsPlainChar(c: char) {
    ('a' <= c <= 'z') || ('A' <= c <= 'Z') || ('0' <= c <= '9') ||
    c == '-' || c == '_' || c == '.' || c == '/' || c == ',' || c == ':' || c == '+' || c == '@' || c == '%'
  }

  predicate IsPlainWord(s: string) {
    forall i :: 0 <= i < |s| ==> IsPlainChar(s[i])
  }

  /** One character inside single quotes: a `'` closes the quotes, is escaped and reopens them. */
  function QuoteChar(c: char): string {
    if c == Quote then [Quote, Backslash, Quote, Quote] else [c]
  }

  /** The inside of a single-quoted argument: every `'` becomes `'\''`. */
  function QuoteBody(s: string): (r: string)
    ensures |r| >= |s|
    ensures Quote !in s ==> r == s
  {
    if s == [] then [] else QuoteChar(s[0]) + QuoteBody(s[1..])
  }

  /** `escapeshellarg`: the string wrapped in single quotes, embedded quotes closed, escaped and reopened. */
  function EscapeShellArg(s: string): (r: string)
    ensures |r| >= |s| + 2 && r[0] == Quote && r[|r| - 1] == Quote
    ensures Quote !in s ==> r == [Quote] + s + [Quote]
  {
    [Quote] + QuoteBody(s) + [Quote]
  }

  /*
   * The word lexer. `Between` is outside any word, `InWord` inside an unquoted
   * part of a word, `InQuote` inside single quotes, `AfterBackslash` right
   * after an unquoted backslash; `Stuck` is reached on input outside the
   * modelled subset (an unquoted operator or special character, a newline, a
   * line continuation).
   */
  datatype Mode = Between | InWord | InQuote | AfterBackslash | Stuck

  /** Words already delimited, the word being built and the lexer mode. */
  datatype Lexer = Lexer(words: seq<string>, cur: string, mode: Mode)

  const Start: Lexer := Lexer([], "", Between)

  predicate Unquoted(st: Lexer) {
    st.mode == Between || st.mode == InWord
  }

  /** An unquoted state that is not half-way through a word unless it is in one. */
  predicate Settled(st: Lexer) {
    st.mode == InWord || (st.mode == Between && st.cur == "")
  }

  function Step(st: Lexer, c: char): Lexer {
    match st.mode
    case Stuck => st
    case InQuote =>
      if c == Quote then st.(mode := InWord) else st.(cur := st.cur + [c])
    case AfterBackslash =>
      if c == '\n' then st.(mode := Stuck) else st.(cur := st.cur + [c], mode := InWord)
    case Between =>
      if IsBlank(c) then st
      else if c == Quote then st.(mode := InQuote)
      else if c == Backslash then st.(mode := AfterBackslash)
      else if IsPlainChar(c) then st.(cur := st.cur + [c], mode := InWord)
      else st.(mode := Stuck)
    case InWord =>
      if IsBlank(c) then Lexer(st.words + [st.cur], "", Between)
      else if c == Quote then st.(mode := InQuote)
      else if c == Backslash then st.(mode := AfterBackslash)
      else if IsPlainChar(c) then st.(cur := st.cur + [c], mode := InWord)
      else st.(mode := Stuck)
  }

  function Run(st: Lexer, s: string): Lexer
    decreases |s|
  {
    if s == [] then st else Run(Step(st, s[0]), s[1..])
  }

  /** The words delimited so far, counting the one being built. */
  function Pending(st: Lexer): seq<string> {
    if st.mode == InWord then st.words + [st.cur] else st.words
  }

  /** The argument vector the shell builds from `line`, or None outside the modelled subset. */
  function Words(line: string): Option<seq<string>> {
    var st := Run(Start, line);
    if Unquoted(st) then Some(Pending(st)) else None
  }

  /** Reads one shell word back into the string it denotes. */
  function Unquote(word: string): Option<string> {
    match Words(word)
    case Some(ws) => if |ws| == 1 then Some(ws[0]) else None
    case None => None
  }

  /** Regrouping a concatenation; the solver finds this step costly on its own. */
  lemma ConcatAssoc<T>(x: seq<T>, y: seq<T>, z: seq<T>)
    ensures (x + y) + z == x + (y + z)
  {
  }

  lemma {:induction false} RunAppend(st: Lexer, a: string, b: string)
    ensures Run(st, a + b) == Run(Run(st, a), b)
    decreases |a|
  {
    if a == [] {
      assert a + b == b;
    } else {
      assert (a + b)[0] == a[0];
      assert (a + b)[1..] == a[1..] + b;
      RunAppend(Step(st, a[0]), a[1..], b);
    }
  }

  lemma RunChar(st: Lexer, c: char)
    ensures Run(st, [c]) == Step(st, c)
  {
    assert [c][1..] == [];
  }

  /** Inside quotes, `'\''` adds one single quote and leaves the lexer inside quotes. */
  lemma RunEscapedQuote(st: Lexer)
    requires st.mode == InQuote
    ensures Run(st, [Quote, Backslash, Quote, Quote]) == st.(cur := st.cur + [Quote])
  {
    var a := st.(mode := InWord);
    var b := a.(mode := AfterBackslash);
    var c := st.(cur := st.cur + [Quote], mode := InWord);
    assert [Quote, Backslash, Quote, Quote][1..] == [Backslash, Quote, Quote];
    assert [Backslash, Quote, Quote][1..] == [Quote, Quote];
    assert [Quote, Quote][1..] == [Quote];
    assert Run(st, [Quote, Backslash, Quote, Quote]) == Run(a, [Backslash, Quote, Quote]);
    assert Run(a, [Backslash, Quote, Quote]) == Run(b, [Quote, Quote]);
    assert Run(b, [Quote, Quote]) == Run(c, [Quote]);
    RunChar(c, Quote);
  }

  /** Inside quotes, a quoted character adds exactly that character. */
  lemma RunQuoteChar(st: Lexer, c: char)
    requires st.mode == InQuote
    ensures Run(st, QuoteChar(c)) == st.(cur := st.cur + [c])
  {
    if c == Quote {
      RunEscapedQuote(st);
    } else {
      RunChar(st, c);
    }
  }

  lemma QuoteBodyCons(s: string)
    requires s != []
    ensures QuoteBody(s) == QuoteChar(s[0]) + QuoteBody(s[1..])
  {
  }

  lemma HeadTail<T>(s: seq<T>)
    requires s != []
    ensures s == [s[0]] + s[1..]
  {
  }

  /** Inside quotes the body of an escaped argument adds exactly the original string. */
  lemma {:induction false} RunQuoteBody(st: Lexer, s: string)
    requires st.mode == InQuote
    ensures Run(st, QuoteBody(s)) == st.(cur := st.cur + s)
    decreases |s|
  {
    if s == [] {
      assert st.cur + s == st.cur;
    } else {
      QuoteBodyCons(s);
      HeadTail(s);
      RunAppend(st, QuoteChar(s[0]), QuoteBody(s[1..]));
      RunQuoteChar(st, s[0]);
      var st1 := st.(cur := st.cur + [s[0]]);
      RunQuoteBody(st1, s[1..]);
      ConcatAssoc(st.cur, [s[0]], s[1..]);
    }
  }

  /** Outside quotes an escaped argument continues the current word with exactly the original string. */
  lemma RunEscaped(st: Lexer, s: string)
    requires Settled(st)
    ensures Run(st, EscapeShellArg(s)) == Lexer(st.words, st.cur + s, InWord)
  {
    var q := st.(mode := InQuote);
    RunAppend(st, [Quote], QuoteBody(s) + [Quote]);
    RunChar(st, Quote);
    assert [Quote] + QuoteBody(s) + [Quote] == [Quote] + (QuoteBody(s) + [Quote]);
    RunAppend(q, QuoteBody(s), [Quote]);
    RunQuoteBody(q, s);
    RunChar(q.(cur := q.cur + s), Quote);
  }

  /** A non-empty plain word continues the current word unchanged. */
  lemma {:induction false} RunPlain(st: Lexer, p: string)
    requires Settled(st) && IsPlainWord(p) && p != []
    ensures Run(st, p) == Lexer(st.words, st.cur + p, InWord)
    decreases |p|
  {
    var st1 := Step(st, p[0]);
    assert st1 == Lexer(st.words, st.cur + [p[0]], InWord);
    if |p| == 1 {
      assert p[1..] == [];
      assert st.cur + p == st.cur + [p[0]];
    } else {
      RunPlain(st1, p[1..]);
      assert st1.cur + p[1..] == st.cur + p;
    }
  }

  /** A blank outside quotes delimits the word being built, if any. */
  lemma RunBlank(st: Lexer)
    requires Settled(st)
    ensures Run(st, " ") == Lexer(Pending(st), "", Between)
  {
    RunChar(st, ' ');
  }

  /** Shell-unquoting the output of `escapeshellarg` gives back the original string, as one word. */
  lemma EscapeRoundTrip(s: string)
    ensures Words(EscapeShellArg(s)) == Some([s])
    ensures Unquote(EscapeShellArg(s)) == Some(s)
  {
    RunEscaped(Start, s);
    assert Run(Start, EscapeShellArg(s)) == Lexer([], s, InWord);
    assert [] + [s] == [s];
  }

  /** Distinct strings escape to distinct arguments. */
  lemma EscapeInjective(s: string, t: string)
    requires EscapeShellArg(s) == EscapeShellArg(t)
    ensures s == t
  {
    EscapeRoundTrip(s);
    EscapeRoundTrip(t);
  }
}
