/**
 The tokenizer of the configuration language: words separated by white space, quoted words, comments
 to the end of the line, and the terminators `;`, `{` and `}`.
 */
module ConfLexer {
  import opened Messages

  datatype End = Semicolon | BlockStart | BlockEnd | Eof | Invalid

  /** The words of one directive, the line of the first of them, and what ended it. */
  datatype Token = Token(end: End, args: seq<string>, lineStart: nat)

  datatype Lexed = Lexed(tok: Token, rest: string, line: nat)

  predicate IsSpace(ch: char) {
    ch == ' ' || ch == '\t' || ch == '\r' || ch == '\n'
  }

  /** Words pass through a C string, which ends at the first NUL. */
  function CStr(w: string): string {
    if w == "" || w[0] == '\0' then "" else [w[0]] + CStr(w[1..])
  }

  /** The variables of the tokenizer; `word` is the text since the current word started. */
  datatype State = State(args: seq<string>, lineStart: nat, line: nat, word: string,
                         comment: bool, dQuoted: bool, sQuoted: bool, needSpace: bool, lastSpace: bool)

  function Init(line: nat): State {
    State([], 0, line, "", false, false, false, false, true)
  }

  datatype Step = Go(s: State) | Stop(s: State, end: End)

  function AddWord(args: seq<string>, word: string): seq<string> {
    if CStr(word) == "" then args else args + [CStr(word)]
  }

  /** After a closing quote: white space or a terminator has to follow. */
  function AfterQuote(s: State, ch: char): Step {
    if IsSpace(ch) then Go(s.(lastSpace := true, needSpace := false))
    else if ch == ';' then Stop(s, Semicolon)
    else if ch == '{' then Stop(s, BlockStart)
    else Stop(s, Invalid)
  }

  /** Between words. */
  function Between(s: State, ch: char): Step {
    if IsSpace(ch) then Go(s)
    else
      match ch
      case ';' => Stop(s, if s.args == [] then Invalid else Semicolon)
      case '{' => Stop(s, if s.args == [] then Invalid else BlockStart)
      case '}' => Stop(s, if s.args == [] then BlockEnd else Invalid)
      case '#' => Go(s.(comment := true))
      case '"' => Go(s.(dQuoted := true, lastSpace := false, word := ""))
      case '\'' => Go(s.(sQuoted := true, lastSpace := false, word := ""))
      case _ => Go(s.(lastSpace := false, word := [ch]))
  }

  predicate EndsWord(s: State, ch: char) {
    if s.dQuoted then ch == '"' else if s.sQuoted then ch == '\'' else IsSpace(ch) || ch == ';' || ch == '{'
  }

  /** Inside a word. */
  function Within(s: State, ch: char): Step {
    var s1 := if s.lineStart == 0 then s.(lineStart := s.line) else s;
    if !EndsWord(s1, ch) then Go(s1.(word := s1.word + [ch]))
    else
      var quoted := s1.dQuoted || s1.sQuoted;
      var s2 := s1.(args := AddWord(s1.args, s1.word), needSpace := quoted, lastSpace := !quoted,
                    dQuoted := false, sQuoted := s1.dQuoted && s1.sQuoted);
      if ch == ';' then Stop(s2, Semicolon) else if ch == '{' then Stop(s2, BlockStart) else Go(s2)
  }

  /** What one character does. */
  function Advance(s: State, ch: char): Step {
    var s0 := if ch == '\n' then s.(line := s.line + 1, comment := false) else s;
    if s0.comment then Go(s0)
    else if s0.needSpace then AfterQuote(s0, ch)
    else if s0.lastSpace then Between(s0, ch)
    else Within(s0, ch)
  }

  /** The token that starts in state `s` at the front of `rest`; each token but the last consumes text. */
  function Lex(rest: string, s: State): (r: Lexed)
    ensures |r.rest| <= |rest|
    ensures !r.tok.end.Eof? && !r.tok.end.Invalid? ==> |r.rest| < |rest|
    ensures r.tok.end.Eof? ==> r.rest == "" && r.tok.args == []
  {
    if rest == "" then
      Lexed(Token(if s.args != [] || !s.lastSpace then Invalid else Eof, s.args, s.lineStart), rest, s.line)
    else
      match Advance(s, rest[0])
      case Go(s1) => Lex(rest[1..], s1)
      case Stop(s1, end) => Lexed(Token(end, s1.args, s1.lineStart), rest[1..], s1.line)
  }

  /** At most one of the flags that say where the tokenizer is. */
  predicate Sane(s: State) {
    && (s.comment ==> s.lastSpace)
    && (s.lastSpace ==> !s.needSpace)
    && (s.dQuoted || s.sQuoted ==> !s.lastSpace && !s.needSpace && !(s.dQuoted && s.sQuoted))
  }

  lemma AdvanceSane(s: State, ch: char)
    requires Sane(s)
    ensures Sane(Advance(s, ch).s)
  {
    hide CStr;
  }

  lemma BetweenSpace(s: State, ch: char)
    requires IsSpace(ch)
    ensures Between(s, ch) == Go(s)
  {
  }

  lemma LexEnd(s: State)
    ensures Lex("", s) ==
      Lexed(Token(if s.args != [] || !s.lastSpace then Invalid else Eof, s.args, s.lineStart), "", s.line)
  {
  }

  lemma LexUnfold(rest: string, s: State)
    requires rest != ""
    ensures Lex(rest, s) ==
      match Advance(s, rest[0])
      case Go(s1) => Lex(rest[1..], s1)
      case Stop(s1, end) => Lexed(Token(end, s1.args, s1.lineStart), rest[1..], s1.line)
  {
  }

  lemma InitSane(line: nat)
    ensures Sane(Init(line))
  {
  }

  lemma SaneFacts(s: State)
    requires Sane(s)
    ensures s.comment ==> s.lastSpace
    ensures s.lastSpace ==> !s.needSpace && !s.dQuoted && !s.sQuoted
    ensures Sane(s.(comment := false)) && forall n: nat :: Sane(s.(line := n)) && Sane(s.(line := n, comment := false))
  {
  }

  /** The flags of the tokenizer loop. */
  datatype Flags = Flags(sharp: bool, dQuoted: bool, sQuoted: bool, needSpace: bool, lastSpace: bool)

  predicate InWord(f: Flags) {
    !f.lastSpace && !f.needSpace
  }

  /** The loop variables of the tokenizer are those of the state `s`. */
  predicate Matches(s: State, args: seq<string>, lineStart: nat, line: nat, f: Flags) {
    && s.args == args && s.lineStart == lineStart && s.line == line
    && Flags(s.comment, s.dQuoted, s.sQuoted, s.needSpace, s.lastSpace) == f
  }

  /** The text being parsed, and how far the parser has come. */
  class ConfigBuffer {
    const start: string
    var pos: nat
    var line: nat

    ghost predicate Valid()
      reads this
    {
      pos <= |start|
    }

    ghost function Rest(): string
      requires Valid()
      reads this
    {
      start[pos..]
    }

    constructor (text: string)
      ensures Valid() && Rest() == text && line == 1
    {
      start := text;
      pos := 0;
      line := 1;
    }

    predicate Empty()
      reads this
    {
      pos >= |start|
    }

    /** A character between words; `stop` is None while the token goes on. */
    method OnBetween(ch: char, ghost s: State, nbArgs: nat)
      returns (stop: Option<End>, sharp: bool, dQuoted: bool, sQuoted: bool, lastSpace: bool)
      requires !IsSpace(ch) && nbArgs == |s.args|
      requires s.lastSpace && !s.comment && Sane(s)
      ensures Between(s, ch) == match stop
        case Some(end) => Stop(s, end)
        case None => Go(s.(comment := sharp, dQuoted := dQuoted, sQuoted := sQuoted, lastSpace := lastSpace,
                           word := if lastSpace then s.word else if dQuoted || sQuoted then "" else [ch]))
      ensures stop.Some? ==> !sharp && !dQuoted && !sQuoted && lastSpace
    {
      stop, sharp, dQuoted, sQuoted, lastSpace := None, false, false, false, true;
      match ch {
        case ';' => stop := Some(if nbArgs == 0 then Invalid else Semicolon);
        case '{' => stop := Some(if nbArgs == 0 then Invalid else BlockStart);
        case '}' => stop := Some(if nbArgs != 0 then Invalid else BlockEnd);
        case '#' => sharp := true;
        case '"' => dQuoted, lastSpace := true, false;
        case '\'' => sQuoted, lastSpace := true, false;
        case _ => lastSpace := false;
      }
    }

    /** A character inside the word that started at `pstart`. */
    method OnWithin(ch: char, ghost s: State, pstart: nat, words: seq<string>, firstLine: nat, dq: bool, sq: bool)
      returns (stop: Option<End>, args: seq<string>, lineStart: nat,
               dQuoted: bool, sQuoted: bool, needSpace: bool, lastSpace: bool)
      requires pstart < pos <= |start|
      requires s == State(words, firstLine, line, start[pstart..pos - 1], false, dq, sq, false, false) && Sane(s)
      ensures var s1 := State(args, lineStart, line, if needSpace || lastSpace then s.word else s.word + [ch],
                              false, dQuoted, sQuoted, needSpace, lastSpace);
        Within(s, ch) == match stop case Some(end) => Stop(s1, end) case None => Go(s1)
    {
      hide CStr;
      stop, args, dQuoted, sQuoted, needSpace, lastSpace := None, words, dq, sq, false, false;
      lineStart := if firstLine == 0 then line else firstLine;
      var found := false;
      if dQuoted {
        if ch == '"' {
          dQuoted := false;
          needSpace := true;
          found := true;
        }
      } else if sQuoted {
        if ch == '\'' {
          sQuoted := false;
          needSpace := true;
          found := true;
        }
      } else if IsSpace(ch) || ch == ';' || ch == '{' {
        lastSpace := true;
        found := true;
      }
      if found {
        var word := CStr(start[pstart..pos - 1]);
        if word != "" {
          args := args + [word];
        }
        if ch == ';' {
          stop := Some(Semicolon);
        }
        if ch == '{' {
          stop := Some(BlockStart);
        }
      }
    }

    static lemma SliceNext(text: string, from: nat, to: nat)
      requires from < to <= |text|
      ensures text[from..to] == text[from..to - 1] + [text[to - 1]]
      ensures text[from..from] == "" && text[to..to] == ""
    {
    }

    /** The body of the tokenizer loop: what the character just taken from the text does. */
    method OnChar(ch: char, ghost s: State, words: seq<string>, firstLine: nat, wordStart: nat, f: Flags)
      returns (stop: Option<End>, args: seq<string>, lineStart: nat, pstart: nat, g: Flags, ghost s1: State)
      requires wordStart < pos <= |start| && ch == start[pos - 1] && Matches(s, words, firstLine, line, f) && Sane(s)
      requires InWord(f) ==> s.word == start[wordStart..pos - 1]
      modifies this`line
      ensures Advance(s, ch) == match stop case Some(end) => Stop(s1, end) case None => Go(s1)
      ensures Matches(s1, args, lineStart, line, g)
      ensures pstart <= pos && (stop.None? && InWord(g) ==> s1.word == start[pstart..pos])
    {
      stop, args, lineStart, pstart, g := None, words, firstLine, wordStart, f;
      if ch == '\n' {
        line := line + 1;
        g := g.(sharp := false);
      }
      ghost var s0 := s.(line := line, comment := g.sharp);
      s1 := s0;
      hide Between, Within, CStr, Sane;
      if g.sharp {
        SaneFacts(s);
        return;
      }
      if g.needSpace {
        s1 := AfterQuote(s0, ch).s;
        if IsSpace(ch) {
          g := g.(lastSpace := true, needSpace := false);
        } else if ch == ';' {
          stop := Some(Semicolon);
        } else if ch == '{' {
          stop := Some(BlockStart);
        } else {
          stop := Some(Invalid);
        }
        return;
      }
      SaneFacts(s);
      if g.lastSpace {
        if IsSpace(ch) {
          BetweenSpace(s0, ch);
          return;
        }
        pstart := pos - 1;
        var sharp, dQuoted, sQuoted, lastSpace;
        stop, sharp, dQuoted, sQuoted, lastSpace := OnBetween(ch, s0, |args|);
        if dQuoted || sQuoted {
          pstart := pstart + 1;
        }
        g := Flags(sharp, dQuoted, sQuoted, false, lastSpace);
        s1 := Between(s0, ch).s;
        SliceNext(start, pos - 1, pos);
      } else {
        var dQuoted, sQuoted, needSpace, lastSpace;
        stop, args, lineStart, dQuoted, sQuoted, needSpace, lastSpace :=
          OnWithin(ch, s0, pstart, args, lineStart, g.dQuoted, g.sQuoted);
        g := Flags(false, dQuoted, sQuoted, needSpace, lastSpace);
        s1 := Within(s0, ch).s;
        SliceNext(start, wordStart, pos);
      }
    }

    method ReadToken() returns (tok: Token)
      requires Valid()
      modifies this
      ensures Valid() && Lexed(tok, Rest(), line) == Lex(old(Rest()), Init(old(line)))
    {
      hide Advance, Lex, Sane;
      var args: seq<string>, lineStart: nat := [], 0;
      var pstart: nat, f := pos, Flags(false, false, false, false, true);
      ghost var s := Init(line);
      ghost var goal := Lex(Rest(), s);
      InitSane(line);
      while true
        invariant 0 <= pstart <= pos <= |start|
        invariant Matches(s, args, lineStart, line, f) && Sane(s)
        invariant InWord(f) ==> s.word == start[pstart..pos]
        invariant goal == Lex(start[pos..], s)
        decreases |start| - pos
      {
        if Empty() {
          LexEnd(s);
          return Token(if args != [] || !f.lastSpace then Invalid else Eof, args, lineStart);
        }
        var ch := start[pos];
        assert start[pos..][1..] == start[pos + 1..];
        LexUnfold(start[pos..], s);
        AdvanceSane(s, ch);
        pos := pos + 1;
        var stop;
        stop, args, lineStart, pstart, f, s := OnChar(ch, s, args, lineStart, pstart, f);
        if stop.Some? {
          return Token(stop.value, args, lineStart);
        }
      }
    }
  }
}
