/** Reading back what was written: the parser inverts the printer on trees of plain words. */
module ConfRoundTrip {
  import opened Messages
  import opened ConfDirectives
  import opened ConfLexer
  import opened ConfParser
  import opened ConfPrinter

  predicate PlainChar(c: char) {
    !IsSpace(c) && c != ';' && c != '{' && c != '\0'
  }

  /** A word the printer can write without quotes, which it never writes. */
  predicate PlainWord(w: string) {
    && w != "" && (forall c | c in w :: PlainChar(c))
    && w[0] != '}' && w[0] != '#' && w[0] != '"' && w[0] != '\''
  }

  predicate PlainTree(ds: seq<Directive>)
    decreases ds
  {
    ds == [] ||
    (PlainWord(ds[0].name) && (forall a | a in ds[0].args :: PlainWord(a))
     && PlainTree(ds[0].children) && PlainTree(ds[1..]))
  }

  // ----- the tokenizer on printed text -----

  /** Between words, outside comments and quotes. */
  predicate Idle(s: State) {
    s.lastSpace && !s.comment && !s.needSpace && !s.dQuoted && !s.sQuoted && s.line > 0
  }

  function FirstLine(s: State): nat {
    if s.lineStart == 0 then s.line else s.lineStart
  }

  lemma {:induction false} LexSpaces(n: nat, r: string, s: State)
    requires Idle(s)
    ensures Lex(Spaces(n) + r, s) == Lex(r, s)
  {
    if n == 0 {
      assert "" + r == r;
    } else {
      assert (Spaces(n) + r)[1..] == Spaces(n - 1) + r;
      LexUnfold(Spaces(n) + r, s);
      LexSpaces(n - 1, r, s);
    }
  }

  /** Inside a word that started with a plain character. */
  predicate Inside(s: State) {
    !s.lastSpace && !s.comment && !s.needSpace && !s.dQuoted && !s.sQuoted && s.line > 0
  }

  lemma {:induction false} LexInside(x: string, r: string, s: State)
    requires Inside(s) && forall c | c in x :: PlainChar(c)
    ensures Lex(x + r, s) ==
      Lex(r, s.(word := s.word + x, lineStart := if x == "" then s.lineStart else FirstLine(s)))
    decreases x
  {
    if x == "" {
      assert x + r == r && s.word + x == s.word;
    } else {
      assert (x + r)[1..] == x[1..] + r;
      LexUnfold(x + r, s);
      assert x[0] in x;
      var s1 := s.(word := s.word + [x[0]], lineStart := FirstLine(s));
      assert Advance(s, x[0]) == Go(s1);
      LexInside(x[1..], r, s1);
      assert s.word + [x[0]] + x[1..] == s.word + x;
    }
  }

  lemma {:induction false} PlainIsCStr(w: string)
    requires forall c | c in w :: PlainChar(c)
    ensures CStr(w) == w
  {
    if w != "" {
      assert w[0] in w;
      PlainIsCStr(w[1..]);
      assert [w[0]] + w[1..] == w;
    }
  }

  /** A plain word, up to the character behind it. */
  lemma LexWord(w: string, r: string, s: State)
    requires PlainWord(w) && Idle(s)
    ensures Lex(w + r, s) == Lex(r, s.(lastSpace := false, word := w,
                                       lineStart := if |w| == 1 then s.lineStart else FirstLine(s)))
  {
    assert (w + r)[1..] == w[1..] + r;
    LexUnfold(w + r, s);
    assert w[0] in w;
    var s1 := s.(lastSpace := false, word := [w[0]]);
    assert Advance(s, w[0]) == Go(s1);
    LexInside(w[1..], r, s1);
    assert [w[0]] + w[1..] == w;
  }

  /** A plain word and the space behind it. */
  lemma LexWordSpace(w: string, r: string, s: State)
    requires PlainWord(w) && Idle(s)
    ensures var s1 := s.(args := s.args + [w], word := w, lineStart := FirstLine(s));
      Idle(s1) && Lex(w + " " + r, s) == Lex(r, s1)
  {
    hide Lex;
    assert w + " " + r == w + (" " + r);
    LexWord(w, " " + r, s);
    var s1 := s.(lastSpace := false, word := w, lineStart := if |w| == 1 then s.lineStart else FirstLine(s));
    LexUnfold(" " + r, s1);
    assert (" " + r)[1..] == r;
    PlainIsCStr(w);
  }

  /** A plain word and the semicolon behind it. */
  lemma LexWordEnd(w: string, r: string, s: State)
    requires PlainWord(w) && Idle(s)
    ensures Lex(w + ";" + r, s) == Lexed(Token(Semicolon, s.args + [w], FirstLine(s)), r, s.line)
  {
    hide Lex;
    assert w + ";" + r == w + (";" + r);
    LexWord(w, ";" + r, s);
    var s1 := s.(lastSpace := false, word := w, lineStart := if |w| == 1 then s.lineStart else FirstLine(s));
    LexUnfold(";" + r, s1);
    assert (";" + r)[1..] == r;
    PlainIsCStr(w);
  }

  /** The opening brace behind a space. */
  lemma LexBrace(r: string, s: State)
    requires Idle(s) && s.args != []
    ensures Lex("{" + r, s) == Lexed(Token(BlockStart, s.args, s.lineStart), r, s.line)
  {
    LexUnfold("{" + r, s);
    assert ("{" + r)[1..] == r;
  }

  /** The words of a line and what ends them. */
  lemma {:induction false} LexWords(ws: seq<string>, r: string, s: State, block: bool)
    requires ws != [] && (forall w | w in ws :: PlainWord(w)) && Idle(s)
    ensures Lex(Join(ws) + (if block then " {" else ";") + r, s) ==
      Lexed(Token(if block then BlockStart else Semicolon, s.args + ws, FirstLine(s)), r, s.line)
    decreases ws
  {
    hide Lex, PlainWord;
    assert ws[0] in ws;
    if |ws| == 1 {
      assert ws == [ws[0]];
      if block {
        assert ws[0] + " {" + r == ws[0] + " " + ("{" + r);
        LexWordSpace(ws[0], "{" + r, s);
        LexBrace(r, s.(args := s.args + [ws[0]], word := ws[0], lineStart := FirstLine(s)));
      } else {
        LexWordEnd(ws[0], r, s);
      }
    } else {
      var end := if block then " {" else ";";
      assert ws[0] + " " + Join(ws[1..]) + end + r == ws[0] + " " + (Join(ws[1..]) + end + r);
      LexWordSpace(ws[0], Join(ws[1..]) + end + r, s);
      LexWords(ws[1..], r, s.(args := s.args + [ws[0]], word := ws[0], lineStart := FirstLine(s)), block);
      assert s.args + [ws[0]] + ws[1..] == s.args + ws;
    }
  }

  /** A line feed before a token only counts. */
  lemma LexNewline(r: string, line: nat)
    ensures Lex("\n" + r, Init(line)) == Lex(r, Init(line + 1))
  {
    LexUnfold("\n" + r, Init(line));
    assert ("\n" + r)[1..] == r;
  }

  lemma LexClose(level: nat, r: string, line: nat)
    requires line > 0
    ensures Lex(Indent(level) + "}" + r, Init(line)) == Lexed(Token(BlockEnd, [], 0), r, line)
  {
    assert Indent(level) + "}" + r == Indent(level) + ("}" + r);
    LexSpaces(if level <= 1 then 0 else 4 * (level - 1), "}" + r, Init(line));
    LexUnfold("}" + r, Init(line));
    assert ("}" + r)[1..] == r;
  }

  // ----- the parser on printed text -----

  /** How many lines a directive is printed on. */
  function Lines(d: Directive): nat
    decreases d
  {
    if d.children == [] then 1 else 2 + LinesAll(d.children)
  }

  function LinesAll(ds: seq<Directive>): nat
    decreases ds
  {
    if ds == [] then 0 else Lines(ds[0]) + LinesAll(ds[1..])
  }

  /** The tree with each directive at the line it is printed on, when the first is on `line`. */
  function Numbered(ds: seq<Directive>, line: nat): (r: seq<Directive>)
    ensures |r| == |ds|
    decreases ds
  {
    if ds == [] then []
    else
      [Directive(line, ds[0].name, ds[0].args, Numbered(ds[0].children, line + 1))]
      + Numbered(ds[1..], line + Lines(ds[0]))
  }

  lemma ParseNewline(r: string, line: nat, inBlock: bool)
    ensures Parse("\n" + r, line, inBlock) == Parse(r, line + 1, inBlock)
  {
    hide Lex;
    LexNewline(r, line);
  }

  /** The head line of a directive is one token; what follows it starts with the line feed. */
  lemma LexHead(d: Directive, level: nat, y: string, line: nat)
    requires PlainWord(d.name) && (forall a | a in d.args :: PlainWord(a)) && line > 0
    ensures Lex(Head(d, level) + y, Init(line)) ==
      Lexed(Token(if d.children == [] then Semicolon else BlockStart, [d.name] + d.args, line), "\n" + y, line)
  {
    hide Lex, PlainWord, Join;
    var ws := [d.name] + d.args;
    var end := if d.children == [] then ";" else " {";
    var words := Join(ws) + end + ("\n" + y);
    assert Head(d, level) + y == Indent(level) + words;
    LexSpaces(if level <= 1 then 0 else 4 * (level - 1), words, Init(line));
    LexWords(ws, "\n" + y, Init(line), d.children != []);
    assert [] + ws == ws;
  }

  lemma ParseClose(level: nat, y: string, line: nat)
    requires line > 0
    ensures Parse(Indent(level) + "}\n" + y, line, true) == Ok([], "\n" + y, line)
  {
    hide Lex, Indent;
    assert Indent(level) + "}\n" + y == Indent(level) + "}" + ("\n" + y);
    LexClose(level, "\n" + y, line);
    ParseUnfold(Indent(level) + "}\n" + y, line, true);
  }

  /** A directive without children: its line, and then the rest. */
  lemma ParseLeaf(d: Directive, level: nat, line: nat, rest: string, inBlock: bool)
    requires PlainWord(d.name) && (forall a | a in d.args :: PlainWord(a)) && line > 0
    requires d.children == []
    ensures Parse(Head(d, level) + rest, line, inBlock)
         == Prepend([Directive(line, d.name, d.args, [])], Parse(rest, line + 1, inBlock))
  {
    hide Lex, Parse, Head, PlainWord, Prepend;
    LexHead(d, level, rest, line);
    ParseUnfold(Head(d, level) + rest, line, inBlock);
    ParseNewline(rest, line, inBlock);
    assert ([d.name] + d.args)[1..] == d.args;
  }

  /** A directive with children whose block text `body` is known to parse to `kids` up to line `end`. */
  lemma ParseBlock(d: Directive, level: nat, line: nat, body: string, kids: seq<Directive>, end: nat, rest: string,
                   inBlock: bool)
    requires PlainWord(d.name) && (forall a | a in d.args :: PlainWord(a)) && line > 0
    requires d.children != []
    requires Parse(body, line + 1, true) == Ok(kids, "\n" + rest, end)
    ensures Parse(Head(d, level) + body, line, inBlock)
         == Prepend([Directive(line, d.name, d.args, kids)], Parse(rest, end + 1, inBlock))
  {
    hide Lex, Parse, Head, PlainWord, Prepend;
    LexHead(d, level, body, line);
    ParseUnfold(Head(d, level) + body, line, inBlock);
    ParseNewline(body, line, true);
    ParseNewline(rest, end, inBlock);
    assert ([d.name] + d.args)[1..] == d.args;
  }

  /** The text of a list of directives, taken apart at the first. */
  lemma PrintSplit(ds: seq<Directive>, level: nat, y: string)
    requires ds != []
    ensures var d, rest := ds[0], PrintAll(ds[1..], level) + y;
      PrintAll(ds, level) + y == Head(d, level) +
        if d.children == [] then rest else PrintAll(d.children, level + 1) + (Indent(level) + "}\n" + rest)
  {
    hide Head, Indent;
    var d, rest := ds[0], PrintAll(ds[1..], level) + y;
    var kids := PrintAll(d.children, level + 1);
    assert PrintAll(ds, level) + y == Head(d, level) + kids + Tail(d, level) + rest;
    if d.children != [] {
      assert Head(d, level) + kids + (Indent(level) + "}\n") + rest
          == Head(d, level) + (kids + (Indent(level) + "}\n" + rest));
    }
  }

  lemma {:induction false} ParseOne(d: Directive, level: nat, line: nat, rest: string, inBlock: bool)
    requires PlainTree([d]) && line > 0
    ensures Parse(Head(d, level) + (if d.children == [] then rest
                                    else PrintAll(d.children, level + 1) + (Indent(level) + "}\n" + rest)),
                  line, inBlock)
         == Prepend([Directive(line, d.name, d.args, Numbered(d.children, line + 1))],
                    Parse(rest, line + Lines(d), inBlock))
    decreases d
  {
    hide Lex, Parse, Head, PlainWord, Indent, PrintAll;
    if d.children == [] {
      ParseLeaf(d, level, line, rest, inBlock);
    } else {
      var close, end := Indent(level) + "}\n" + rest, line + 1 + LinesAll(d.children);
      var kids := Numbered(d.children, line + 1);
      ParsePrinted(d.children, level + 1, line + 1, close, true);
      ParseClose(level, rest, end);
      assert kids + [] == kids;
      ParseBlock(d, level, line, PrintAll(d.children, level + 1) + close, kids, end, rest, inBlock);
    }
  }

  lemma {:induction false} ParsePrinted(ds: seq<Directive>, level: nat, line: nat, y: string, inBlock: bool)
    requires PlainTree(ds) && line > 0
    ensures Parse(PrintAll(ds, level) + y, line, inBlock)
         == Prepend(Numbered(ds, line), Parse(y, line + LinesAll(ds), inBlock))
    decreases ds
  {
    hide Parse, PlainWord, Indent, Head, PrintDir;
    if ds == [] {
      assert "" + y == y;
      PrependNothing(Parse(y, line, inBlock));
    } else {
      hide PrintAll, Prepend;
      var d, rest := ds[0], PrintAll(ds[1..], level) + y;
      PrintSplit(ds, level, y);
      ParseOne(d, level, line, rest, inBlock);
      ParsePrinted(ds[1..], level, line + Lines(d), y, inBlock);
      PrependAssoc([Directive(line, d.name, d.args, Numbered(d.children, line + 1))],
                   Numbered(ds[1..], line + Lines(d)), Parse(y, line + LinesAll(ds), inBlock));
    }
  }

  lemma PrependNothing(r: Parsed)
    ensures Prepend([], r) == r
  {
  }

  // ----- the line numbers are those of the text -----

  function CountLF(s: string): nat {
    if s == "" then 0 else (if s[0] == '\n' then 1 else 0) + CountLF(s[1..])
  }

  lemma {:induction false} CountConcat(a: string, b: string)
    ensures CountLF(a + b) == CountLF(a) + CountLF(b)
  {
    if a == "" {
      assert a + b == b;
    } else {
      assert (a + b)[1..] == a[1..] + b;
      CountConcat(a[1..], b);
    }
  }

  lemma {:induction false} CountWord(w: string)
    requires forall c | c in w :: c != '\n'
    ensures CountLF(w) == 0
  {
    if w != "" {
      assert w[0] in w && forall c | c in w[1..] :: c in w;
      CountWord(w[1..]);
    }
  }

  lemma {:induction false} SpacesNoLF(n: nat)
    ensures forall c | c in Spaces(n) :: c == ' '
  {
    if n > 0 {
      SpacesNoLF(n - 1);
    }
  }

  lemma {:induction false} CountJoin(ws: seq<string>)
    requires forall w | w in ws :: PlainWord(w)
    ensures CountLF(Join(ws)) == 0
  {
    if ws != [] {
      assert ws[0] in ws;
      CountWord(ws[0]);
      if |ws| > 1 {
        CountJoin(ws[1..]);
        CountWord(" ");
        CountConcat(ws[0] + " ", Join(ws[1..]));
        CountConcat(ws[0], " ");
      }
    }
  }

  /** A directive takes as many lines of the text as `Lines` says. */
  lemma {:induction false} LinesAreLineFeeds(ds: seq<Directive>, level: nat)
    requires PlainTree(ds)
    ensures CountLF(PrintAll(ds, level)) == LinesAll(ds)
    decreases ds
  {
    hide PlainWord, Join;
    if ds != [] {
      var d := ds[0];
      var kids := PrintAll(d.children, level + 1);
      LinesAreLineFeeds(d.children, level + 1);
      LinesAreLineFeeds(ds[1..], level);
      HeadOneLine(d, level);
      TailLines(d, level);
      CountConcat(Head(d, level) + kids, Tail(d, level));
      CountConcat(Head(d, level), kids);
      CountConcat(PrintDir(d, level), PrintAll(ds[1..], level));
    }
  }

  lemma HeadOneLine(d: Directive, level: nat)
    requires PlainWord(d.name) && (forall a | a in d.args :: PlainWord(a))
    ensures CountLF(Head(d, level)) == 1
  {
    hide PlainWord, Join;
    var words, end := Join([d.name] + d.args), if d.children == [] then ";\n" else " {\n";
    SpacesNoLF(if level <= 1 then 0 else 4 * (level - 1));
    CountWord(Indent(level));
    CountJoin([d.name] + d.args);
    CountConcat(Indent(level) + words, end);
    CountConcat(Indent(level), words);
    assert end[1..] == if d.children == [] then "\n" else "{\n";
    assert CountLF("\n") == 1 && "{\n"[1..] == "\n";
    assert CountLF(end) == 1;
  }

  lemma TailLines(d: Directive, level: nat)
    ensures CountLF(Tail(d, level)) == if d.children == [] then 0 else 1
  {
    SpacesNoLF(if level <= 1 then 0 else 4 * (level - 1));
    CountWord(Indent(level));
    CountConcat(Indent(level), "}\n");
    assert "}\n"[1..] == "\n" && CountLF("\n") == 1 && CountLF("}\n") == 1;
  }

  lemma {:induction false} NumberedAt(ds: seq<Directive>, line: nat, i: nat)
    requires i < |ds|
    ensures Numbered(ds, line)[i] ==
      var at := line + LinesAll(ds[..i]);
      Directive(at, ds[i].name, ds[i].args, Numbered(ds[i].children, at + 1))
    decreases i
  {
    if i > 0 {
      NumberedAt(ds[1..], line + Lines(ds[0]), i - 1);
      assert ds[..i][1..] == ds[1..][..i - 1];
    }
  }

  lemma {:induction false} PlainTreePrefix(ds: seq<Directive>, i: nat)
    requires PlainTree(ds) && i <= |ds|
    ensures PlainTree(ds[..i])
    decreases i
  {
    if i > 0 {
      PlainTreePrefix(ds[1..], i - 1);
      assert ds[..i][1..] == ds[1..][..i - 1];
    }
  }

  /** The number given to a directive is the line its text starts on; its children follow one line below. */
  lemma NumberIsOutputLine(ds: seq<Directive>, level: nat, line: nat, i: nat)
    requires PlainTree(ds) && i < |ds|
    ensures var d := Numbered(ds, line)[i];
      && d.line == line + CountLF(PrintAll(ds[..i], level))
      && d.children == Numbered(ds[i].children, line + CountLF(PrintAll(ds[..i], level) + Head(ds[i], level)))
  {
    NumberedAt(ds, line, i);
    PlainTreePrefix(ds, i);
    LinesAreLineFeeds(ds[..i], level);
    PlainAt(ds, i);
    HeadOneLine(ds[i], level);
    CountConcat(PrintAll(ds[..i], level), Head(ds[i], level));
  }

  lemma {:induction false} PlainAt(ds: seq<Directive>, i: nat)
    requires PlainTree(ds) && i < |ds|
    ensures PlainWord(ds[i].name) && (forall a | a in ds[i].args :: PlainWord(a))
  {
    if i > 0 {
      PlainAt(ds[1..], i - 1);
    }
  }

  lemma {:induction false} NumberedSamePlain(ds: seq<Directive>, line: nat)
    ensures PlainAll(Numbered(ds, line)) == PlainAll(ds)
    decreases ds
  {
    if ds != [] {
      NumberedSamePlain(ds[0].children, line + 1);
      NumberedSamePlain(ds[1..], line + Lines(ds[0]));
    }
  }

  /**
   Round trip: for every tree of plain words, parsing what the printer writes succeeds, consumes the
   whole text and gives back the same tree, with each directive at the line it was written on.
   */
  lemma RoundTrip(root: Directive)
    requires PlainTree(root.children)
    ensures Parse(Print(root), 1, false)
         == Ok(Numbered(root.children, 1), "", 1 + CountLF(Print(root)))
    ensures PlainAll(Numbered(root.children, 1)) == PlainAll(root.children)
  {
    hide Parse, PlainTree, PrintAll, CountLF;
    ParsePrinted(root.children, 1, 1, "", false);
    LinesAreLineFeeds(root.children, 1);
    NumberedSamePlain(root.children, 1);
    assert Print(root) + "" == Print(root);
    ParseUnfold("", 1 + LinesAll(root.children), false);
    assert Numbered(root.children, 1) + [] == Numbered(root.children, 1);
  }
}
