/**
 What a text in the configuration language says, however it is laid out: any white space, comments
 wherever white space may stand, and words without quotes or in either kind of them.
 */
module ConfWritten {
  import opened Messages
  import opened ConfDirectives
  import opened ConfLexer
  import opened ConfParser
  import RT = ConfRoundTrip

  /** White space, a comment with the line feed that ends it, or a word in one of three styles. */
  datatype Piece = Blank(ch: char) | Comment(text: string) | Bare(w: string) | Double(w: string) | Single(w: string)
  {
    predicate IsWord() {
      Bare? || Double? || Single?
    }

    predicate Proper() {
      match this
      case Blank(ch) => ch == ' ' || ch == '\t' || ch == '\r' || ch == '\n'
      case Comment(text) => '\n' !in text
      case Bare(w) => && w != "" && w[0] !in "}#\"'" && forall c | c in w :: c !in " \t\r\n;{\0"
      case Double(w) => '"' !in w && '\0' !in w
      case Single(w) => '\'' !in w && '\0' !in w
    }

    function Text(): string {
      match this
      case Blank(ch) => [ch]
      case Comment(text) => "#" + text + "\n"
      case Bare(w) => w
      case Double(w) => "\"" + w + "\""
      case Single(w) => "'" + w + "'"
    }
  }

  /** Behind a word there is white space, or nothing more. */
  predicate Laid(ps: seq<Piece>) {
    ps != [] ==> ps[0].Proper() && (ps[0].IsWord() && |ps| > 1 ==> ps[1].Blank?) && Laid(ps[1..])
  }

  function Text(ps: seq<Piece>): string {
    if ps == [] then "" else ps[0].Text() + Text(ps[1..])
  }

  /** The words, without those that are empty. */
  function Words(ps: seq<Piece>): seq<string> {
    if ps == [] then []
    else (if ps[0].IsWord() && ps[0].w != "" then [ps[0].w] else []) + Words(ps[1..])
  }

  /** The line of the character behind the one that starts the first word; 0 without words. */
  function StartLine(ps: seq<Piece>, end: char, line: nat): nat {
    if ps == [] then 0
    else if ps[0].IsWord() then
      var text := Text(ps) + [end];
      if |text| > 1 && text[1] == '\n' then line + 1 else line
    else StartLine(ps[1..], end, line + RT.CountLF(ps[0].Text()))
  }

  // ----- the tokenizer on one piece -----

  lemma LexStep(ch: char, r: string, s: State, s1: State)
    requires Advance(s, ch) == Go(s1)
    ensures Lex([ch] + r, s) == Lex(r, s1)
  {
    hide Advance;
    LexUnfold([ch] + r, s);
    assert ([ch] + r)[1..] == r;
  }

  lemma LexStop(ch: char, r: string, s: State, s1: State, end: End)
    requires Advance(s, ch) == Stop(s1, end)
    ensures Lex([ch] + r, s) == Lexed(Token(end, s1.args, s1.lineStart), r, s1.line)
  {
    hide Advance;
    LexUnfold([ch] + r, s);
    assert ([ch] + r)[1..] == r;
  }

  function LF(ch: char): nat {
    if ch == '\n' then 1 else 0
  }

  lemma CountOne(ch: char)
    ensures RT.CountLF([ch]) == LF(ch)
  {
    assert [ch][1..] == "";
  }

  lemma AdvanceIdle(s: State)
    requires RT.Idle(s)
    ensures Advance(s, '#') == Go(s.(comment := true))
    ensures Advance(s, '"') == Go(s.(dQuoted := true, lastSpace := false, word := ""))
    ensures Advance(s, '\'') == Go(s.(sQuoted := true, lastSpace := false, word := ""))
  {
    hide Within, AfterQuote;
  }

  lemma AdvanceBlank(s: State, ch: char)
    requires RT.Idle(s) && Blank(ch).Proper()
    ensures Advance(s, ch) == Go(s.(line := s.line + LF(ch)))
  {
    hide Within, AfterQuote;
  }

  lemma LexBlank(ch: char, r: string, s: State)
    requires RT.Idle(s) && Blank(ch).Proper()
    ensures Lex([ch] + r, s) == Lex(r, s.(line := s.line + LF(ch)))
  {
    hide Lex, Advance;
    AdvanceBlank(s, ch);
    LexStep(ch, r, s, s.(line := s.line + LF(ch)));
  }

  lemma AdvanceComment(s: State, ch: char)
    requires s.comment
    ensures ch != '\n' ==> Advance(s, ch) == Go(s)
    ensures ch == '\n' && s.lastSpace && !s.needSpace ==> Advance(s, ch) == Go(s.(line := s.line + 1, comment := false))
  {
    hide Within, AfterQuote;
  }

  lemma {:induction false} LexInComment(c: string, r: string, s: State)
    requires s.comment && '\n' !in c
    ensures Lex(c + r, s) == Lex(r, s)
  {
    hide Lex, Advance;
    if c == "" {
      assert c + r == r;
    } else {
      assert c + r == [c[0]] + (c[1..] + r) && c[0] in c;
      AdvanceComment(s, c[0]);
      LexStep(c[0], c[1..] + r, s, s);
      LexInComment(c[1..], r, s);
    }
  }

  /** A comment is what its line feed is. */
  lemma LexComment(c: string, r: string, s: State)
    requires RT.Idle(s) && '\n' !in c
    ensures Lex("#" + c + "\n" + r, s) == Lex(r, s.(line := s.line + 1))
  {
    hide Lex, Advance;
    var inside := s.(comment := true);
    assert "#" + c + "\n" + r == "#" + (c + ("\n" + r));
    AdvanceIdle(s);
    LexStep('#', c + ("\n" + r), s, inside);
    LexInComment(c, "\n" + r, inside);
    AdvanceComment(inside, '\n');
    LexStep('\n', r, inside, s.(line := s.line + 1));
  }

  // ----- words -----

  lemma {:induction false} NoNulIsCStr(w: string)
    requires '\0' !in w
    ensures CStr(w) == w
  {
    if w != "" {
      assert w[0] in w && '\0' !in w[1..];
      NoNulIsCStr(w[1..]);
      assert [w[0]] + w[1..] == w;
    }
  }

  /** What a word and the character behind it leave; `first` is the line the word would start a directive on. */
  function Behind(s: State, w: string, first: nat, lines: nat): State {
    s.(args := if w == "" then s.args else s.args + [w], word := w,
       lineStart := if s.lineStart == 0 then first else s.lineStart, line := s.line + lines)
  }

  predicate Opened(s: State, quote: char) {
    && !s.lastSpace && !s.comment && !s.needSpace && s.line > 0
    && ((quote == '"' && s.dQuoted && !s.sQuoted) || (quote == '\'' && s.sQuoted && !s.dQuoted))
  }

  lemma AdvanceOpened(s: State, quote: char, ch: char)
    requires Opened(s, quote)
    ensures ch != quote ==>
      Advance(s, ch) == Go(s.(line := s.line + LF(ch), word := s.word + [ch],
                              lineStart := if s.lineStart == 0 then s.line + LF(ch) else s.lineStart))
    ensures Advance(s, quote) ==
      Go(s.(args := AddWord(s.args, s.word), needSpace := true, dQuoted := false, sQuoted := false,
            lineStart := if s.lineStart == 0 then s.line else s.lineStart))
  {
    hide Between, AfterQuote, CStr, AddWord;
  }

  lemma {:induction false} LexOpened(c: string, r: string, s: State, quote: char)
    requires Opened(s, quote) && quote !in c
    ensures Lex(c + r, s) ==
      Lex(r, s.(word := s.word + c, line := s.line + RT.CountLF(c),
                lineStart := if c == "" || s.lineStart != 0 then s.lineStart else s.line + LF(c[0])))
  {
    hide Lex, Advance;
    if c == "" {
      assert c + r == r && s.word + c == s.word;
    } else {
      assert c + r == [c[0]] + (c[1..] + r) && c[0] in c;
      AdvanceOpened(s, quote, c[0]);
      var s1 := s.(line := s.line + LF(c[0]), word := s.word + [c[0]],
                   lineStart := if s.lineStart == 0 then s.line + LF(c[0]) else s.lineStart);
      LexStep(c[0], c[1..] + r, s, s1);
      LexOpened(c[1..], r, s1, quote);
      assert s.word + [c[0]] + c[1..] == s.word + c;
    }
  }

  /** Behind a closing quote. */
  predicate Closed(s: State) {
    s.needSpace && !s.comment && !s.lastSpace && !s.dQuoted && !s.sQuoted && s.line > 0
  }

  lemma AdvanceClosed(s: State, ch: char)
    requires Closed(s)
    ensures Blank(ch).Proper() ==>
      Advance(s, ch) == Go(s.(line := s.line + LF(ch), lastSpace := true, needSpace := false))
    ensures ch == ';' || ch == '{' ==> Advance(s, ch) == Stop(s, EndOf(ch))
    ensures ch !in " \t\r\n;{" ==> Advance(s, ch) == Stop(s, Invalid)
  {
    hide Within, Between;
    assert ch !in " \t\r\n;{" ==> ch != ' ' && ch != '\t' && ch != '\r' && ch != '\n' && ch != ';' && ch != '{';
  }

  /** The state in front of the closing quote. */
  function AtClose(s: State, w: string, quote: char): State {
    s.(dQuoted := quote == '"', sQuoted := quote != '"', lastSpace := false, word := w,
       line := s.line + RT.CountLF(w),
       lineStart := if w == "" || s.lineStart != 0 then s.lineStart else s.line + LF(w[0]))
  }

  lemma LexToClose(w: string, quote: char, r: string, s: State)
    requires RT.Idle(s) && (quote == '"' || quote == '\'') && quote !in w
    ensures Opened(AtClose(s, w, quote), quote)
    ensures Lex([quote] + (w + r), s) == Lex(r, AtClose(s, w, quote))
  {
    hide Lex, Advance;
    AdvanceIdle(s);
    var s1 := s.(dQuoted := quote == '"', sQuoted := quote != '"', lastSpace := false, word := "");
    LexStep(quote, w + r, s, s1);
    LexOpened(w, r, s1, quote);
    assert "" + w == w;
  }

  /** A quoted word, up to the character behind its closing quote. */
  lemma LexQuoted(w: string, quote: char, r: string, s: State)
    requires RT.Idle(s) && (quote == '"' || quote == '\'') && quote !in w && '\0' !in w
    ensures var first := s.line + LF((w + [quote])[0]);
      var s1 := Behind(s, w, first, RT.CountLF(w)).(lastSpace := false, needSpace := true);
      Closed(s1) && Lex([quote] + w + [quote] + r, s) == Lex(r, s1)
  {
    hide Lex, Advance, CStr;
    assert [quote] + w + [quote] + r == [quote] + (w + ([quote] + r));
    LexToClose(w, quote, [quote] + r, s);
    var s2 := AtClose(s, w, quote);
    AdvanceOpened(s2, quote, quote);
    NoNulIsCStr(w);
    assert RT.CountLF("") == 0;
    hide RT.CountLF;
    LexStep(quote, r, s2,
            Behind(s, w, s.line + LF((w + [quote])[0]), RT.CountLF(w)).(lastSpace := false, needSpace := true));
  }

  lemma AdvanceBare(s: State, ch: char)
    requires RT.Inside(s)
    ensures var words := AddWord(s.args, s.word);
      && (Blank(ch).Proper() ==>
           Advance(s, ch) == Go(s.(line := s.line + LF(ch), args := words, lastSpace := true,
                                   lineStart := if s.lineStart == 0 then s.line + LF(ch) else s.lineStart)))
      && (ch == ';' || ch == '{' ==>
           Advance(s, ch) == Stop(s.(args := words, lastSpace := true,
                                     lineStart := if s.lineStart == 0 then s.line else s.lineStart), EndOf(ch)))
  {
    hide AddWord, Between, AfterQuote;
  }

  /** The line a word would start a directive on, with `ch` behind it. */
  function First(p: Piece, ch: char, line: nat): nat {
    var text := p.Text() + [ch];
    if |text| > 1 && text[1] == '\n' then line + 1 else line
  }

  lemma ProperIsPlain(w: string)
    requires Bare(w).Proper()
    ensures RT.PlainWord(w) && '\0' !in w && RT.CountLF(w) == 0
  {
    forall c | c in w ensures RT.PlainChar(c) && c != '\n' {
      assert c !in " \t\r\n;{\0";
      assert c != ' ' && c != '\t' && c != '\r' && c != '\n' && c != ';' && c != '{' && c != '\0';
    }
    assert w[0] != '}' && w[0] != '#' && w[0] != '"' && w[0] != '\'';
    RT.CountWord(w);
  }

  lemma FirstOfBare(w: string, ch: char, line: nat)
    requires Bare(w).Proper()
    ensures First(Bare(w), ch, line) == if |w| == 1 then line + LF(ch) else line
  {
    ProperIsPlain(w);
    if |w| > 1 {
      assert w[1] in w && RT.PlainChar(w[1]);
    }
  }

  lemma LexBareBlank(w: string, ch: char, r: string, s: State)
    requires RT.Idle(s) && Bare(w).Proper() && Blank(ch).Proper()
    ensures Lex(w + ([ch] + r), s) == Lex(r, Behind(s, w, First(Bare(w), ch, s.line), LF(ch)))
  {
    hide Lex, Advance, RT.PlainWord, RT.CountLF;
    ProperIsPlain(w);
    FirstOfBare(w, ch, s.line);
    hide First;
    RT.LexWord(w, [ch] + r, s);
    var s1 := s.(lastSpace := false, word := w, lineStart := if |w| == 1 then s.lineStart else RT.FirstLine(s));
    AdvanceBare(s1, ch);
    NoNulIsCStr(w);
    LexStep(ch, r, s1, Behind(s, w, if |w| == 1 then s.line + LF(ch) else s.line, LF(ch)));
  }

  /** What ends a directive. */
  function EndOf(ch: char): End {
    if ch == ';' then Semicolon else BlockStart
  }

  /** The token that ends in state `s`. */
  function Ended(s: State, ch: char, r: string): Lexed {
    Lexed(Token(EndOf(ch), s.args, s.lineStart), r, s.line)
  }

  lemma LexBareEnd(w: string, ch: char, r: string, s: State)
    requires RT.Idle(s) && Bare(w).Proper() && (ch == ';' || ch == '{')
    ensures Lex(w + ([ch] + r), s) == Ended(Behind(s, w, First(Bare(w), ch, s.line), 0), ch, r)
  {
    hide Lex, Advance, RT.PlainWord, RT.CountLF;
    ProperIsPlain(w);
    FirstOfBare(w, ch, s.line);
    hide First;
    RT.LexWord(w, [ch] + r, s);
    var s1 := s.(lastSpace := false, word := w, lineStart := if |w| == 1 then s.lineStart else RT.FirstLine(s));
    AdvanceBare(s1, ch);
    NoNulIsCStr(w);
    LexStop(ch, r, s1, Behind(s, w, s.line, 0).(lastSpace := true), EndOf(ch));
  }

  predicate Quote(p: Piece, quote: char) {
    && p.IsWord() && p.Text() == [quote] + p.w + [quote] && (quote == '"' || quote == '\'')
    && quote !in p.w && '\0' !in p.w
  }

  lemma QuotedIsQuote(p: Piece) returns (quote: char)
    requires p.Proper() && p.IsWord() && !p.Bare?
    ensures Quote(p, quote)
  {
    quote := if p.Double? then '"' else '\'';
  }

  lemma FirstOfQuoted(p: Piece, quote: char, ch: char, line: nat)
    requires Quote(p, quote)
    ensures First(p, ch, line) == line + LF((p.w + [quote])[0])
  {
    var text := [quote] + p.w + [quote] + [ch];
    assert text[1] == (p.w + [quote])[0];
  }

  lemma BehindMore(s: State, w: string, first: nat, a: nat, b: nat)
    requires RT.Idle(s)
    ensures var s1 := Behind(s, w, first, a).(lastSpace := false, needSpace := true);
      s1.(line := s1.line + b, lastSpace := true, needSpace := false) == Behind(s, w, first, a + b)
  {
  }

  lemma LexQuotedBlank(p: Piece, quote: char, ch: char, r: string, s: State)
    requires RT.Idle(s) && Quote(p, quote) && Blank(ch).Proper()
    ensures Lex(p.Text() + ([ch] + r), s)
         == Lex(r, Behind(s, p.w, First(p, ch, s.line), RT.CountLF(p.w) + LF(ch)))
  {
    hide Lex, Advance, RT.CountLF;
    FirstOfQuoted(p, quote, ch, s.line);
    hide First, Behind, Piece.Proper, Closed;
    LexQuoted(p.w, quote, [ch] + r, s);
    var s1 := Behind(s, p.w, First(p, ch, s.line), RT.CountLF(p.w)).(lastSpace := false, needSpace := true);
    AdvanceClosed(s1, ch);
    BehindMore(s, p.w, First(p, ch, s.line), RT.CountLF(p.w), LF(ch));
    LexStep(ch, r, s1, Behind(s, p.w, First(p, ch, s.line), RT.CountLF(p.w) + LF(ch)));
  }

  lemma LexQuotedEnd(p: Piece, quote: char, ch: char, r: string, s: State)
    requires RT.Idle(s) && Quote(p, quote) && (ch == ';' || ch == '{')
    ensures Lex(p.Text() + ([ch] + r), s) == Ended(Behind(s, p.w, First(p, ch, s.line), RT.CountLF(p.w)), ch, r)
  {
    hide Lex, Advance, RT.CountLF;
    LexQuoted(p.w, quote, [ch] + r, s);
    FirstOfQuoted(p, quote, ch, s.line);
    hide First;
    var s1 := Behind(s, p.w, First(p, ch, s.line), RT.CountLF(p.w)).(lastSpace := false, needSpace := true);
    AdvanceClosed(s1, ch);
    LexStop(ch, r, s1, s1, EndOf(ch));
  }

  lemma LexWordBlank(p: Piece, ch: char, r: string, s: State)
    requires RT.Idle(s) && p.Proper() && p.IsWord() && Blank(ch).Proper()
    ensures Lex(p.Text() + ([ch] + r), s)
         == Lex(r, Behind(s, p.w, First(p, ch, s.line), RT.CountLF(p.w) + LF(ch)))
  {
    hide Lex, First, RT.CountLF, RT.PlainWord;
    if p.Bare? {
      ProperIsPlain(p.w);
      LexBareBlank(p.w, ch, r, s);
    } else {
      var quote := QuotedIsQuote(p);
      LexQuotedBlank(p, quote, ch, r, s);
    }
  }

  lemma LexWordEnd(p: Piece, ch: char, r: string, s: State)
    requires RT.Idle(s) && p.Proper() && p.IsWord() && (ch == ';' || ch == '{')
    ensures Lex(p.Text() + ([ch] + r), s) == Ended(Behind(s, p.w, First(p, ch, s.line), RT.CountLF(p.w)), ch, r)
  {
    hide Lex, First, RT.CountLF, RT.PlainWord;
    if p.Bare? {
      ProperIsPlain(p.w);
      LexBareEnd(p.w, ch, r, s);
    } else {
      var quote := QuotedIsQuote(p);
      LexQuotedEnd(p, quote, ch, r, s);
    }
  }

  // ----- a whole directive -----

  lemma SecondChar(w: string, ch: char, more: string, end: char)
    requires |w| > 0
    ensures (w + ([ch] + more) + [end])[1] == (w + [ch])[1]
  {
    assert w + ([ch] + more) + [end] == w + [ch] + (more + [end]);
  }

  lemma WordIsThere(p: Piece)
    requires p.Proper() && p.IsWord()
    ensures |p.Text()| > 0
  {
  }

  lemma BlankText(p: Piece)
    requires p.Blank?
    ensures p.Text() == [p.ch]
  {
  }

  /** A word, and the blank behind it unless it stands last. */
  lemma TextOfWord(ps: seq<Piece>, end: char, line: nat)
    requires Laid(ps) && ps != [] && ps[0].IsWord()
    ensures var p := ps[0];
      if |ps| == 1 then
        && Text(ps) == p.Text() && StartLine(ps, end, line) == First(p, end, line)
        && Words(ps) == (if p.w == "" then [] else [p.w])
      else
        && ps[1].Blank? && Text(ps) == p.Text() + ([ps[1].ch] + Text(ps[2..]))
        && StartLine(ps, end, line) == First(p, ps[1].ch, line)
        && Words(ps) == (if p.w == "" then [] else [p.w]) + Words(ps[2..])
  {
    hide Laid, Piece.Text, Piece.Proper;
    var p := ps[0];
    LaidFacts(ps);
    WordIsThere(p);
    if |ps| == 1 {
      assert ps[1..] == [];
    } else {
      assert ps[1..][1..] == ps[2..] && ps[1..][0] == ps[1];
      BlankText(ps[1]);
      assert Text(ps[1..]) == [ps[1].ch] + Text(ps[2..]);
      SecondChar(p.Text(), ps[1].ch, Text(ps[2..]), end);
    }
  }

  lemma CountText(p: Piece)
    requires p.Proper()
    ensures RT.CountLF(p.Text()) == match p
      case Blank(ch) => LF(ch)
      case Comment(_) => 1
      case _ => RT.CountLF(p.w)
  {
    match p
    case Blank(ch) => CountOne(ch);
    case Comment(text) =>
      RT.CountConcat("#" + text, "\n");
      RT.CountConcat("#", text);
      RT.CountWord(text);
      CountOne('#');
      CountOne('\n');
    case Bare(w) =>
    case Double(w) =>
      RT.CountConcat("\"" + w, "\"");
      RT.CountConcat("\"", w);
      CountOne('"');
    case Single(w) =>
      RT.CountConcat("'" + w, "'");
      RT.CountConcat("'", w);
      CountOne('\'');
  }

  function Filled(s: State, ps: seq<Piece>, end: char): State {
    s.(args := s.args + Words(ps), line := s.line + RT.CountLF(Text(ps)),
       lineStart := if s.lineStart == 0 then StartLine(ps, end, s.line) else s.lineStart)
  }

  lemma LexEndNow(end: char, r: string, s: State)
    requires RT.Idle(s) && (end == ';' || end == '{') && s.args != []
    ensures Lex([end] + r, s) == Ended(s, end, r)
  {
    hide Lex, Within, AfterQuote;
    LexStop(end, r, s, s, EndOf(end));
  }

  /** The words of a directive, whatever stands between them. */
  lemma {:induction false} LexPieces(ps: seq<Piece>, end: char, r: string, s: State)
    requires Laid(ps) && RT.Idle(s) && (end == ';' || end == '{') && s.args + Words(ps) != []
    ensures Lex(Text(ps) + ([end] + r), s) == Ended(Filled(s, ps, end), end, r)
    decreases |ps|
  {
    hide Lex, RT.CountLF, Laid, First, Words, StartLine, Text, Piece.Text, Piece.Proper;
    NoPieces(end, s.line);
    if ps == [] {
      assert Text(ps) + ([end] + r) == [end] + r && s.args + [] == s.args;
      LexEndNow(end, r, s);
    } else if ps[0].IsWord() {
      LexFirstWord(ps, end, r, s);
    } else {
      LexFirstGap(ps, end, r, s);
    }
  }

  lemma NoPieces(end: char, line: nat)
    ensures Text([]) == "" && Words([]) == [] && StartLine([], end, line) == 0 && RT.CountLF("") == 0
  {
  }

  lemma StartBehindGap(ps: seq<Piece>, end: char, line: nat)
    requires ps != [] && !ps[0].IsWord()
    ensures StartLine(ps, end, line) == StartLine(ps[1..], end, line + RT.CountLF(ps[0].Text()))
    ensures Words(ps) == Words(ps[1..])
    ensures Text(ps) == ps[0].Text() + Text(ps[1..])
  {
    hide RT.CountLF, Piece.Text;
  }

  lemma FilledGap(s: State, ps: seq<Piece>, end: char)
    requires ps != [] && !ps[0].IsWord()
    ensures Filled(s, ps, end) == Filled(s.(line := s.line + RT.CountLF(ps[0].Text())), ps[1..], end)
    ensures Words(ps) == Words(ps[1..])
  {
    hide RT.CountLF, Piece.Text, Text, Words, StartLine;
    StartBehindGap(ps, end, s.line);
    RT.CountConcat(ps[0].Text(), Text(ps[1..]));
  }

  lemma LaidFacts(ps: seq<Piece>)
    requires Laid(ps) && ps != []
    ensures ps[0].Proper() && Laid(ps[1..])
    ensures ps[0].IsWord() && |ps| > 1 ==> ps[1].Blank? && ps[1].Proper() && Laid(ps[2..])
    ensures ps[0].Comment? ==> '\n' !in ps[0].text
  {
    if |ps| > 1 {
      assert ps[1..][0] == ps[1] && ps[1..][1..] == ps[2..];
    }
  }

  lemma LexBlankPiece(p: Piece, r: string, s: State)
    requires RT.Idle(s) && p.Proper() && p.Blank?
    ensures Lex(p.Text() + r, s) == Lex(r, s.(line := s.line + RT.CountLF(p.Text())))
  {
    hide Lex, RT.CountLF, RT.Idle;
    CountOne(p.ch);
    LexBlank(p.ch, r, s);
  }

  lemma LexCommentPiece(p: Piece, r: string, s: State)
    requires RT.Idle(s) && p.Proper() && p.Comment?
    ensures Lex(p.Text() + r, s) == Lex(r, s.(line := s.line + RT.CountLF(p.Text())))
  {
    CountText(p);
    hide Lex, RT.CountLF, RT.Idle;
    LexComment(p.text, r, s);
  }

  /** White space or a comment in front of anything only moves the line. */
  lemma LexGap(p: Piece, r: string, s: State)
    requires RT.Idle(s) && p.Proper() && !p.IsWord()
    ensures Lex(p.Text() + r, s) == Lex(r, s.(line := s.line + RT.CountLF(p.Text())))
  {
    hide Lex, RT.CountLF, RT.Idle, Piece.Proper, Piece.Text;
    if p.Blank? {
      LexBlankPiece(p, r, s);
    } else {
      LexCommentPiece(p, r, s);
    }
  }

  lemma LexFirstGap(ps: seq<Piece>, end: char, r: string, s: State)
    requires Laid(ps) && RT.Idle(s) && (end == ';' || end == '{') && s.args + Words(ps) != []
    requires ps != [] && !ps[0].IsWord()
    ensures Lex(Text(ps) + ([end] + r), s) == Ended(Filled(s, ps, end), end, r)
    decreases |ps|, 0
  {
    hide Lex, RT.CountLF, Laid, First, StartLine, Filled, Piece.Proper, Piece.Text, Ended, Words, Text;
    var text, rest := ps[0].Text(), Text(ps[1..]) + ([end] + r);
    LaidFacts(ps);
    FilledGap(s, ps, end);
    StartBehindGap(ps, end, s.line);
    assert Text(ps) + ([end] + r) == text + rest;
    LexGap(ps[0], rest, s);
    LexPieces(ps[1..], end, r, s.(line := s.line + RT.CountLF(text)));
  }

  /** The state behind a word that is followed by a blank. */
  function BehindBlank(s: State, p: Piece, ch: char): State
    requires p.IsWord()
  {
    Behind(s, p.w, First(p, ch, s.line), RT.CountLF(p.w) + LF(ch))
  }

  lemma WordsConcat(args: seq<string>, w: string, more: seq<string>)
    ensures args + ((if w == "" then [] else [w]) + more) == (if w == "" then args else args + [w]) + more
  {
  }

  /** What a first word and the blank behind it contribute to each of the three. */
  lemma WordContributes(ps: seq<Piece>, end: char, line: nat, args: seq<string>)
    requires Laid(ps) && |ps| > 1 && ps[0].IsWord() && ps[1].Blank? && line > 0
    ensures StartLine(ps, end, line) == First(ps[0], ps[1].ch, line) > 0
    ensures RT.CountLF(Text(ps)) == RT.CountLF(ps[0].w) + LF(ps[1].ch) + RT.CountLF(Text(ps[2..]))
    ensures args + Words(ps) == (if ps[0].w == "" then args else args + [ps[0].w]) + Words(ps[2..])
  {
    hide Laid, RT.CountLF, First, Words, StartLine, Text, Piece.Text, Piece.Proper;
    LaidFacts(ps);
    TextOfWord(ps, end, line);
    CountWordBlank(ps[0], ps[1].ch, Text(ps[2..]));
    FirstPositive(ps[0], ps[1].ch, line);
    WordsConcat(args, ps[0].w, Words(ps[2..]));
  }

  lemma FilledWord(s: State, ps: seq<Piece>, end: char, r: string)
    requires Laid(ps) && |ps| > 1 && ps[0].IsWord() && ps[1].Blank? && RT.Idle(s)
    ensures var s1 := BehindBlank(s, ps[0], ps[1].ch);
      && RT.Idle(s1) && s.args + Words(ps) == s1.args + Words(ps[2..])
      && Ended(Filled(s, ps, end), end, r) == Ended(Filled(s1, ps[2..], end), end, r)
  {
    hide Laid, RT.CountLF, First, Words, StartLine, Text, Piece.Text, Piece.Proper, EndOf, LF;
    WordContributes(ps, end, s.line, s.args);
  }

  lemma CountWordBlank(p: Piece, ch: char, more: string)
    requires p.Proper() && p.IsWord()
    ensures RT.CountLF(p.Text() + ([ch] + more)) == RT.CountLF(p.w) + LF(ch) + RT.CountLF(more)
  {
    CountText(p);
    hide RT.CountLF;
    RT.CountConcat(p.Text(), [ch] + more);
    RT.CountConcat([ch], more);
    CountOne(ch);
  }

  lemma LexFirstWord(ps: seq<Piece>, end: char, r: string, s: State)
    requires Laid(ps) && RT.Idle(s) && (end == ';' || end == '{') && s.args + Words(ps) != []
    requires ps != [] && ps[0].IsWord()
    ensures Lex(Text(ps) + ([end] + r), s) == Ended(Filled(s, ps, end), end, r)
    decreases |ps|, 0
  {
    hide Lex, RT.CountLF, Laid, First, Words, StartLine, Text, Piece.Text, Piece.Proper, Filled, Ended, RT.Idle, Behind;
    var p := ps[0];
    LaidFacts(ps);
    TextOfWord(ps, end, s.line);
    if |ps| == 1 {
      LexWordEnd(p, end, r, s);
      EndedFilled(s, ps, end, r);
    } else {
      var ch, rest := ps[1].ch, Text(ps[2..]) + ([end] + r);
      FilledWord(s, ps, end, r);
      assert Text(ps) + ([end] + r) == p.Text() + ([ch] + rest);
      assert ps[1] == Blank(ch);
      LexWordBlank(p, ch, rest, s);
      LexPieces(ps[2..], end, r, BehindBlank(s, p, ch));
    }
  }

  lemma EndedFilled(s: State, ps: seq<Piece>, end: char, r: string)
    requires Laid(ps) && |ps| == 1 && ps[0].IsWord()
    ensures var p := ps[0];
      Ended(Filled(s, ps, end), end, r) == Ended(Behind(s, p.w, First(p, end, s.line), RT.CountLF(p.w)), end, r)
  {
    hide Laid;
    LaidFacts(ps);
    TextOfWord(ps, end, s.line);
    CountText(ps[0]);
    hide RT.CountLF, First, Words, StartLine, Text, Piece.Text, Piece.Proper;
    assert s.args + [] == s.args;
  }

  lemma FirstPositive(p: Piece, ch: char, line: nat)
    requires line > 0
    ensures First(p, ch, line) > 0
  {
  }

  // ----- a whole text -----

  predicate Gap(ps: seq<Piece>) {
    ps != [] ==> ps[0].Proper() && !ps[0].IsWord() && Gap(ps[1..])
  }

  /** A directive as it is written: its words and a semicolon, or its words and a block. */
  datatype Item = Leaf(head: seq<Piece>) | Section(head: seq<Piece>, items: seq<Item>, tail: seq<Piece>)

  /** Every directive has a word that is not empty. */
  predicate WrittenItem(i: Item)
    decreases i
  {
    Laid(i.head) && Words(i.head) != [] && (i.Section? ==> Written(i.items) && Gap(i.tail))
  }

  predicate Written(items: seq<Item>)
    decreases items
  {
    items != [] ==> WrittenItem(items[0]) && Written(items[1..])
  }

  function ItemText(i: Item): string
    decreases i
  {
    match i
    case Leaf(head) => Text(head) + ";"
    case Section(head, items, tail) => Text(head) + "{" + TextOf(items) + Text(tail) + "}"
  }

  function TextOf(items: seq<Item>): string
    decreases items
  {
    if items == [] then "" else ItemText(items[0]) + TextOf(items[1..])
  }

  /** The directive that is written, when the text starts on `line`. */
  function Node(i: Item, line: nat): Directive
    requires WrittenItem(i)
    decreases i
  {
    var words, at := Words(i.head), StartLine(i.head, if i.Leaf? then ';' else '{', line);
    Directive(at, words[0], words[1..], if i.Leaf? then [] else Tree(i.items, line + RT.CountLF(Text(i.head))))
  }

  function Tree(items: seq<Item>, line: nat): seq<Directive>
    requires Written(items)
    decreases items
  {
    if items == [] then []
    else [Node(items[0], line)] + Tree(items[1..], line + RT.CountLF(ItemText(items[0])))
  }

  lemma {:induction false} LexGaps(ps: seq<Piece>, r: string, s: State)
    requires Gap(ps) && RT.Idle(s)
    ensures Lex(Text(ps) + r, s) == Lex(r, s.(line := s.line + RT.CountLF(Text(ps))))
  {
    hide Lex, Piece.Text, Piece.Proper;
    if ps == [] {
      assert Text(ps) + r == r;
    } else {
      hide RT.CountLF;
      var text := ps[0].Text();
      assert Text(ps) + r == text + (Text(ps[1..]) + r);
      LexGap(ps[0], Text(ps[1..]) + r, s);
      LexGaps(ps[1..], r, s.(line := s.line + RT.CountLF(text)));
      RT.CountConcat(text, Text(ps[1..]));
    }
  }

  lemma InitIdle(line: nat)
    requires line > 0
    ensures RT.Idle(Init(line)) && Init(line).args == [] && Init(line).lineStart == 0
  {
  }

  /** The token that a written directive starts with. */
  lemma LexWritten(ps: seq<Piece>, end: char, r: string, line: nat)
    requires Laid(ps) && Words(ps) != [] && (end == ';' || end == '{') && line > 0
    ensures Lex(Text(ps) + ([end] + r), Init(line)) ==
      Lexed(Token(EndOf(end), Words(ps), StartLine(ps, end, line)), r, line + RT.CountLF(Text(ps)))
  {
    hide Lex, RT.CountLF, Text, Laid, StartLine, Words, RT.Idle;
    InitIdle(line);
    assert [] + Words(ps) == Words(ps);
    LexPieces(ps, end, r, Init(line));
  }

  lemma ParseLeaf(ps: seq<Piece>, r: string, line: nat, inBlock: bool)
    requires Laid(ps) && Words(ps) != [] && line > 0
    ensures Parse(Text(ps) + (";" + r), line, inBlock) ==
      Prepend([Directive(StartLine(ps, ';', line), Words(ps)[0], Words(ps)[1..], [])],
              Parse(r, line + RT.CountLF(Text(ps)), inBlock))
  {
    hide Lex, Parse, RT.CountLF, Text, Laid, StartLine, Words, Prepend;
    LexWritten(ps, ';', r, line);
    ParseUnfold(Text(ps) + (";" + r), line, inBlock);
  }

  lemma ParseSection(ps: seq<Piece>, body: string, kids: seq<Directive>, end: nat, r: string, line: nat, inBlock: bool)
    requires Laid(ps) && Words(ps) != [] && line > 0
    requires Parse(body, line + RT.CountLF(Text(ps)), true) == Ok(kids, r, end)
    ensures Parse(Text(ps) + ("{" + body), line, inBlock) ==
      Prepend([Directive(StartLine(ps, '{', line), Words(ps)[0], Words(ps)[1..], kids)], Parse(r, end, inBlock))
  {
    hide Lex, Parse, RT.CountLF, Text, Laid, StartLine, Words, Prepend;
    LexWritten(ps, '{', body, line);
    ParseUnfold(Text(ps) + ("{" + body), line, inBlock);
  }

  /** White space and comments in front of the brace that closes a block. */
  lemma ParseTail(ps: seq<Piece>, r: string, line: nat)
    requires Gap(ps) && line > 0
    ensures Parse(Text(ps) + ("}" + r), line, true) == Ok([], r, line + RT.CountLF(Text(ps)))
  {
    hide Lex, Parse, RT.CountLF, Text, Gap;
    InitIdle(line);
    LexGaps(ps, "}" + r, Init(line));
    LexClosing(r, Init(line + RT.CountLF(Text(ps))));
    ParseUnfold(Text(ps) + ("}" + r), line, true);
  }

  lemma LexClosing(r: string, s: State)
    requires RT.Idle(s) && s.args == []
    ensures Lex("}" + r, s) == Lexed(Token(BlockEnd, [], s.lineStart), r, s.line)
  {
    hide Lex, Within, AfterQuote;
    LexStop('}', r, s, s, BlockEnd);
  }

  lemma {:induction false} ParseItem(i: Item, r: string, line: nat, inBlock: bool)
    requires WrittenItem(i) && line > 0
    ensures Parse(ItemText(i) + r, line, inBlock)
         == Prepend([Node(i, line)], Parse(r, line + RT.CountLF(ItemText(i)), inBlock))
    decreases i
  {
    hide Parse, RT.CountLF, Text, Laid, StartLine, Words, Gap, Prepend;
    CountItem(i);
    match i
    case Leaf(head) =>
      assert ItemText(i) + r == Text(head) + (";" + r);
      ParseLeaf(head, r, line, inBlock);
    case Section(head, items, tail) =>
      var kids, line1 := TextOf(items), line + RT.CountLF(Text(head));
      var line2 := line1 + RT.CountLF(kids);
      var body := kids + (Text(tail) + ("}" + r));
      assert ItemText(i) + r == Text(head) + ("{" + body);
      ParseWritten(items, Text(tail) + ("}" + r), line1, true);
      ParseTail(tail, r, line2);
      PrependLast(Tree(items, line1), r, line2 + RT.CountLF(Text(tail)));
      ParseSection(head, body, Tree(items, line1), line2 + RT.CountLF(Text(tail)), r, line, inBlock);
  }

  lemma PrependLast(ds: seq<Directive>, r: string, line: nat)
    ensures Prepend(ds, Ok([], r, line)) == Ok(ds, r, line)
  {
    assert ds + [] == ds;
  }

  lemma CountItem(i: Item)
    ensures RT.CountLF(ItemText(i)) == RT.CountLF(Text(i.head)) +
      if i.Leaf? then 0 else RT.CountLF(TextOf(i.items)) + RT.CountLF(Text(i.tail))
  {
    CountOne(';');
    CountOne('{');
    CountOne('}');
    hide RT.CountLF, Text;
    match i
    case Leaf(head) =>
      RT.CountConcat(Text(head), ";");
    case Section(head, items, tail) =>
      RT.CountConcat(Text(head), "{");
      RT.CountConcat(Text(head) + "{", TextOf(items));
      RT.CountConcat(Text(head) + "{" + TextOf(items), Text(tail));
      RT.CountConcat(Text(head) + "{" + TextOf(items) + Text(tail), "}");
  }

  /**
   Any text that is written as `items` is read as the tree it is meant as, with the lines counted in
   the text, and what follows is read from where it starts.
   */
  lemma {:induction false} ParseWritten(items: seq<Item>, r: string, line: nat, inBlock: bool)
    requires Written(items) && line > 0
    ensures Parse(TextOf(items) + r, line, inBlock)
         == Prepend(Tree(items, line), Parse(r, line + RT.CountLF(TextOf(items)), inBlock))
    decreases items
  {
    hide Parse, RT.CountLF, WrittenItem, ItemText, Node;
    if items == [] {
      NoPieces(';', line);
      assert TextOf(items) + r == r;
      RT.PrependNothing(Parse(r, line, inBlock));
    } else {
      var text, more := ItemText(items[0]), TextOf(items[1..]);
      var line1 := line + RT.CountLF(text);
      assert TextOf(items) + r == text + (more + r);
      ParseItem(items[0], more + r, line, inBlock);
      ParseWritten(items[1..], r, line1, inBlock);
      RT.CountConcat(text, more);
      hide Prepend;
      PrependAssoc([Node(items[0], line)], Tree(items[1..], line1), Parse(r, line1 + RT.CountLF(more), inBlock));
    }
  }

  /** A whole file: directives, and then white space and comments, the last of which may end with the file. */
  lemma ParseFile(items: seq<Item>, tail: seq<Piece>, last: Option<string>)
    requires Written(items) && Gap(tail) && (last.Some? ==> '\n' !in last.value)
    ensures var text := TextOf(items) + Text(tail) + if last.Some? then "#" + last.value else "";
      Parse(text, 1, false) == Ok(Tree(items, 1), "", 1 + RT.CountLF(TextOf(items)) + RT.CountLF(Text(tail)))
  {
    hide Parse, Lex, RT.CountLF, Text, TextOf, Tree, Gap, Written;
    var end := if last.Some? then "#" + last.value else "";
    var line := 1 + RT.CountLF(TextOf(items));
    assert TextOf(items) + Text(tail) + end == TextOf(items) + (Text(tail) + end);
    ParseWritten(items, Text(tail) + end, 1, false);
    InitIdle(line);
    LexGaps(tail, end, Init(line));
    LexFileEnd(last, Init(line + RT.CountLF(Text(tail))));
    ParseUnfold(Text(tail) + end, line, false);
    PrependLast(Tree(items, 1), "", line + RT.CountLF(Text(tail)));
  }

  lemma LexFileEnd(last: Option<string>, s: State)
    requires RT.Idle(s) && s.args == [] && s.lineStart == 0 && (last.Some? ==> '\n' !in last.value)
    ensures Lex(if last.Some? then "#" + last.value else "", s) == Lexed(Token(Eof, [], 0), "", s.line)
  {
    hide Lex, Advance;
    LexEnd(s);
    if last.Some? {
      var inside := s.(comment := true);
      AdvanceIdle(s);
      LexStep('#', last.value, s, inside);
      assert last.value + "" == last.value;
      LexInComment(last.value, "", inside);
      LexEnd(inside);
    }
  }

  // ----- laws of the text -----

  /** A comment up to its line feed only counts a line, whatever follows. */
  lemma CommentIsNothing(c: string, r: string, line: nat, inBlock: bool)
    requires '\n' !in c && line > 0
    ensures Parse("#" + c + "\n" + r, line, inBlock) == Parse(r, line + 1, inBlock)
  {
    hide Lex;
    InitIdle(line);
    LexComment(c, r, Init(line));
  }

  lemma OneLetter()
    ensures var head := [Bare("a"), Blank('\n')];
      && Laid(head) && Text(head) == "a\n" && Words(head) == ["a"] && StartLine(head, ';', 1) == 2
      && RT.CountLF(Text(head)) == 1
  {
    var head := [Bare("a"), Blank('\n')];
    assert head[1..] == [Blank('\n')] && head[1..][1..] == [];
    assert Text(head[1..]) == "\n" && Text(head) == "a\n";
    assert (Text(head) + [';'])[1] == '\n';
    assert "a\n"[1..] == "\n" && "\n"[1..] == "";
  }

  /** A first word of one character at the end of its line: the directive is said to start a line late. */
  lemma OneLetterIsALineLate()
    ensures Parse("a\n;", 1, false) == Ok([Directive(2, "a", [], [])], "", 2)
  {
    hide Parse, Lex, RT.CountLF, Text, Words, StartLine, Laid;
    OneLetter();
    assert "a\n;" == "a\n" + (";" + "") && ["a"][1..] == [];
    ParseLeaf([Bare("a"), Blank('\n')], "", 1, false);
    ParseUnfold("", 2, false);
    LexEnd(Init(2));
    PrependLast([Directive(2, "a", [], [])], "", 2);
  }

  // ----- what is refused -----

  /** The pieces, up to where a brace that closes or the end of the text may come. */
  lemma {:induction false} LexOpen(ps: seq<Piece>, r: string, s: State) returns (s1: State)
    requires Laid(ps) && RT.Idle(s) && (ps != [] ==> !ps[|ps| - 1].IsWord())
    ensures RT.Idle(s1) && s1.args == s.args + Words(ps) && Lex(Text(ps) + r, s) == Lex(r, s1)
    decreases |ps|
  {
    hide Lex, RT.CountLF, Laid, First, Words, Text, Piece.Text, Piece.Proper, RT.Idle, Behind;
    NoPieces(';', s.line);
    if ps == [] {
      s1 := s;
      assert Text(ps) + r == r && s.args + [] == s.args;
    } else if ps[0].IsWord() {
      LaidFacts(ps);
      TextOfWord(ps, ';', s.line);
      FilledWord(s, ps, ';', r);
      assert Text(ps) + r == ps[0].Text() + ([ps[1].ch] + (Text(ps[2..]) + r)) && ps[1] == Blank(ps[1].ch);
      LexWordBlank(ps[0], ps[1].ch, Text(ps[2..]) + r, s);
      s1 := LexOpen(ps[2..], r, BehindBlank(s, ps[0], ps[1].ch));
    } else {
      LaidFacts(ps);
      StartBehindGap(ps, ';', s.line);
      assert Text(ps) + r == ps[0].Text() + (Text(ps[1..]) + r);
      LexGap(ps[0], Text(ps[1..]) + r, s);
      MovedIdle(s, RT.CountLF(ps[0].Text()));
      s1 := LexOpen(ps[1..], r, s.(line := s.line + RT.CountLF(ps[0].Text())));
    }
  }

  lemma MovedIdle(s: State, lines: nat)
    requires RT.Idle(s)
    ensures RT.Idle(s.(line := s.line + lines))
  {
  }

  lemma RefusedIdle(r: string, s: State)
    requires RT.Idle(s)
    ensures s.args == [] ==> Lex(";" + r, s).tok.end == Invalid && Lex("{" + r, s).tok.end == Invalid
    ensures s.args != [] ==> Lex("}" + r, s).tok.end == Invalid && Lex("", s).tok.end == Invalid
  {
    hide Lex, Within, AfterQuote;
    LexEnd(s);
    if s.args == [] {
      LexStop(';', r, s, s, Invalid);
      LexStop('{', r, s, s, Invalid);
    } else {
      LexStop('}', r, s, s, Invalid);
    }
  }

  /** A directive without words, and words that a closing brace or the end of the text cuts off. */
  lemma CutOffIsRefused(ps: seq<Piece>, r: string, line: nat, inBlock: bool)
    requires Laid(ps) && (ps != [] ==> !ps[|ps| - 1].IsWord()) && line > 0
    ensures Words(ps) == [] ==> Parse(Text(ps) + (";" + r), line, inBlock) == Err(1023)
    ensures Words(ps) == [] ==> Parse(Text(ps) + ("{" + r), line, inBlock) == Err(1023)
    ensures Words(ps) != [] ==> Parse(Text(ps) + ("}" + r), line, inBlock) == Err(1023)
    ensures Words(ps) != [] ==> Parse(Text(ps) + "", line, inBlock) == Err(1023)
  {
    hide Lex, Parse, Text, Laid, Words, RT.Idle;
    InitIdle(line);
    assert [] + Words(ps) == Words(ps);
    if Words(ps) == [] {
      var s1 := LexOpen(ps, ";" + r, Init(line));
      var s2 := LexOpen(ps, "{" + r, Init(line));
      RefusedIdle(r, s1);
      RefusedIdle(r, s2);
      ParseUnfold(Text(ps) + (";" + r), line, inBlock);
      ParseUnfold(Text(ps) + ("{" + r), line, inBlock);
    } else {
      var s1 := LexOpen(ps, "}" + r, Init(line));
      var s2 := LexOpen(ps, "", Init(line));
      RefusedIdle(r, s1);
      RefusedIdle(r, s2);
      ParseUnfold(Text(ps) + ("}" + r), line, inBlock);
      ParseUnfold(Text(ps) + "", line, inBlock);
    }
  }

  /** A quoted word ends at its quote: only white space or what ends a directive may follow. */
  lemma GluedIsRefused(ps: seq<Piece>, p: Piece, ch: char, r: string, line: nat, inBlock: bool)
    requires Laid(ps) && (ps != [] ==> !ps[|ps| - 1].IsWord()) && line > 0
    requires p.Proper() && (p.Double? || p.Single?) && ch !in " \t\r\n;{"
    ensures Parse(Text(ps) + (p.Text() + ([ch] + r)), line, inBlock) == Err(1023)
  {
    hide Lex, Parse, Text, Laid, Words, RT.Idle, Advance, RT.CountLF;
    InitIdle(line);
    var s1 := LexOpen(ps, p.Text() + ([ch] + r), Init(line));
    var quote := QuotedIsQuote(p);
    LexQuoted(p.w, quote, [ch] + r, s1);
    var first := s1.line + LF((p.w + [quote])[0]);
    var s2 := Behind(s1, p.w, first, RT.CountLF(p.w)).(lastSpace := false, needSpace := true);
    AdvanceClosed(s2, ch);
    LexStop(ch, r, s2, s2, Invalid);
    ParseUnfold(Text(ps) + (p.Text() + ([ch] + r)), line, inBlock);
  }

  /** A brace that closes nothing, and a block that the file ends in. */
  lemma UnbalancedIsRefused(gap: seq<Piece>, r: string, line: nat)
    requires Gap(gap) && line > 0
    ensures Parse(Text(gap) + ("}" + r), line, false) == Err(1026)
    ensures Parse(Text(gap) + "", line, true) == Err(1027)
  {
    hide Lex, Parse, Text, Gap, RT.CountLF;
    InitIdle(line);
    var s1 := Init(line + RT.CountLF(Text(gap)));
    LexGaps(gap, "}" + r, Init(line));
    LexGaps(gap, "", Init(line));
    LexClosing(r, s1);
    LexEnd(s1);
    ParseUnfold(Text(gap) + ("}" + r), line, false);
    ParseUnfold(Text(gap) + "", line, true);
  }
}
