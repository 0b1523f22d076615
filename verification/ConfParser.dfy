/** The block parser of the configuration language. */
module ConfParser {
  import opened Messages
  import opened ConfDirectives
  import opened ConfLexer

  const ERROR_SYSTEM_CONFIG_INVALID := 1023
  const ERROR_SYSTEM_CONFIG_BLOCK_END := 1026
  const ERROR_SYSTEM_CONFIG_EOF := 1027

  /** The directives read up to the end of the block or file, and where that end is; or an error code. */
  datatype Parsed =
    | Ok(ds: seq<Directive>, rest: string, line: nat)
    | Err(code: int)

  function FromToken(tok: Token, children: seq<Directive>): Directive
    requires tok.args != []
  {
    Directive(tok.lineStart, tok.args[0], tok.args[1..], children)
  }

  /** Parses the inside of a block, or a whole file. Each nested block gets a strictly shorter rest. */
  function Parse(text: string, line: nat, inBlock: bool): (r: Parsed)
    ensures r.Ok? ==> |r.rest| <= |text|
    ensures r.Err? ==> r.code != 0
    decreases |text|
  {
    var t := Lex(text, Init(line));
    var end := t.tok.end;
    if end == Invalid then Err(ERROR_SYSTEM_CONFIG_INVALID)
    else if end == BlockEnd then
      if inBlock then Ok([], t.rest, t.line) else Err(ERROR_SYSTEM_CONFIG_BLOCK_END)
    else if end == Eof then
      if inBlock then Err(ERROR_SYSTEM_CONFIG_EOF) else Ok([], t.rest, t.line)
    else if t.tok.args == [] then Err(ERROR_SYSTEM_CONFIG_INVALID)
    else
      var block := if end == BlockStart then Parse(t.rest, t.line, true) else Ok([], t.rest, t.line);
      if block.Err? then block
      else
        var more := Parse(block.rest, block.line, inBlock);
        if more.Err? then more else more.(ds := [FromToken(t.tok, block.ds)] + more.ds)
  }

  // ----- the parser as a method on the buffer -----

  /** `ds` was read already, and `r` is the outcome for what follows. */
  function Prepend(ds: seq<Directive>, r: Parsed): Parsed {
    if r.Err? then r else r.(ds := ds + r.ds)
  }

  /** What one token means for the parse. */
  lemma ParseUnfold(text: string, line: nat, inBlock: bool)
    ensures var t := Lex(text, Init(line)); var r := Parse(text, line, inBlock);
      && (t.tok.end == Invalid ==> r == Err(ERROR_SYSTEM_CONFIG_INVALID))
      && (t.tok.end == BlockEnd ==>
            r == if inBlock then Ok([], t.rest, t.line) else Err(ERROR_SYSTEM_CONFIG_BLOCK_END))
      && (t.tok.end == Eof ==> r == if inBlock then Err(ERROR_SYSTEM_CONFIG_EOF) else Ok([], t.rest, t.line))
      && (t.tok.end == BlockStart || t.tok.end == Semicolon ==>
            if t.tok.args == [] then r == Err(ERROR_SYSTEM_CONFIG_INVALID)
            else
              var block := if t.tok.end == BlockStart then Parse(t.rest, t.line, true) else Ok([], t.rest, t.line);
              if block.Err? then r == block
              else
                r == Prepend([FromToken(t.tok, block.ds)], Parse(block.rest, block.line, inBlock)))
  {
    hide Lex;
  }

  lemma PrependAssoc(a: seq<Directive>, b: seq<Directive>, r: Parsed)
    ensures Prepend(a, Prepend(b, r)) == Prepend(a + b, r)
  {
    if r.Ok? {
      assert a + (b + r.ds) == a + b + r.ds;
    }
  }

  method ParseConf(buffer: ConfigBuffer, inBlock: bool) returns (code: int, directives: seq<Directive>)
    requires buffer.Valid()
    modifies buffer
    ensures buffer.Valid()
    ensures match Parse(old(buffer.Rest()), old(buffer.line), inBlock)
      case Ok(ds, rest, line) => code == 0 && directives == ds && buffer.Rest() == rest && buffer.line == line
      case Err(e) => code == e && code != 0
    decreases |buffer.Rest()|
  {
    hide Lex, Parse;
    directives := [];
    ghost var text, line := buffer.Rest(), buffer.line;
    ghost var goal := Parse(text, line, inBlock);
    assert goal == Prepend([], goal);
    while true
      invariant buffer.Valid() && buffer.Rest() == text && buffer.line == line
      invariant |text| <= |old(buffer.Rest())|
      invariant goal == Prepend(directives, Parse(text, line, inBlock))
      decreases |text|
    {
      ParseUnfold(text, line, inBlock);
      var tok := buffer.ReadToken();
      text, line := buffer.Rest(), buffer.line;
      if tok.end == Invalid {
        return ERROR_SYSTEM_CONFIG_INVALID, directives;
      }
      if tok.end == BlockEnd {
        if !inBlock {
          return ERROR_SYSTEM_CONFIG_BLOCK_END, directives;
        }
        return 0, directives;
      }
      if tok.end == Eof {
        if inBlock {
          return ERROR_SYSTEM_CONFIG_EOF, directives;
        }
        return 0, directives;
      }
      if |tok.args| == 0 {
        return ERROR_SYSTEM_CONFIG_INVALID, directives;
      }
      var children := [];
      if tok.end == BlockStart {
        code, children := ParseConf(buffer, true);
        if code != 0 {
          return code, directives;
        }
        text, line := buffer.Rest(), buffer.line;
      }
      PrependAssoc(directives, [FromToken(tok, children)], Parse(text, line, inBlock));
      directives := directives + [FromToken(tok, children)];
    }
  }

  // ----- an independent reading of what is accepted -----

  /** All tokens of a text, up to the one that ends it. */
  function Tokens(text: string, line: nat): (r: seq<Token>)
    ensures r != []
    decreases |text|
  {
    var t := Lex(text, Init(line));
    if t.tok.end == Eof || t.tok.end == Invalid then [t.tok] else [t.tok] + Tokens(t.rest, t.line)
  }

  /**
   A machine with one counter: each `{` goes one level down, each `}` one level up, directives are
   not empty, and the file ends on the top level.
   */
  predicate Balanced(ts: seq<Token>, depth: nat) {
    ts != [] &&
    match ts[0].end
    case Invalid => false
    case Eof => depth == 0
    case BlockEnd => depth > 0 && Balanced(ts[1..], depth - 1)
    case BlockStart => ts[0].args != [] && Balanced(ts[1..], depth + 1)
    case Semicolon => ts[0].args != [] && Balanced(ts[1..], depth)
  }

  /** A directive with the depth it stands at. */
  datatype Entry = Entry(depth: nat, line: int, words: seq<string>)

  /** What the tokens say, level by level; the machine's counter is the depth. */
  function Spelled(ts: seq<Token>, depth: nat): seq<Entry> {
    if ts == [] then []
    else
      match ts[0].end
      case BlockEnd => Spelled(ts[1..], if depth > 0 then depth - 1 else 0)
      case BlockStart => [Entry(depth, ts[0].lineStart, ts[0].args)] + Spelled(ts[1..], depth + 1)
      case Semicolon => [Entry(depth, ts[0].lineStart, ts[0].args)] + Spelled(ts[1..], depth)
      case _ => []
  }

  /** What the tree says, in the order of the text. */
  function Outline(ds: seq<Directive>, depth: nat): seq<Entry> {
    if ds == [] then []
    else
      [Entry(depth, ds[0].line, [ds[0].name] + ds[0].args)]
      + Outline(ds[0].children, depth + 1) + Outline(ds[1..], depth)
  }

  lemma OutlineCons(d: Directive, ds: seq<Directive>, depth: nat, rest: seq<Entry>)
    ensures Outline([d] + ds, depth) + rest ==
      [Entry(depth, d.line, [d.name] + d.args)] + (Outline(d.children, depth + 1) + (Outline(ds, depth) + rest))
  {
    assert ([d] + ds)[1..] == ds;
  }

  lemma TokensUnfold(text: string, line: nat)
    ensures var t := Lex(text, Init(line));
      Tokens(text, line) ==
        if t.tok.end == Eof || t.tok.end == Invalid then [t.tok] else [t.tok] + Tokens(t.rest, t.line)
  {
    hide Lex;
  }

  lemma MachineStep(t: Token, ts: seq<Token>, depth: nat)
    requires t.end == BlockStart || t.end == Semicolon
    ensures var d := if t.end == BlockStart then depth + 1 else depth;
      && Balanced([t] + ts, depth) == (t.args != [] && Balanced(ts, d))
      && Spelled([t] + ts, depth) == [Entry(depth, t.lineStart, t.args)] + Spelled(ts, d)
  {
    assert ([t] + ts)[1..] == ts;
  }

  /** The machine behind the end of a block is one level up; behind the end of the file it is done. */
  predicate BalancedAfter(r: Parsed, depth: nat)
    requires r.Ok?
  {
    depth > 0 ==> Balanced(Tokens(r.rest, r.line), depth - 1)
  }

  function SpelledAfter(r: Parsed, depth: nat): seq<Entry>
    requires r.Ok?
  {
    if depth > 0 then Spelled(Tokens(r.rest, r.line), depth - 1) else []
  }

  /** A block, or a file, is parsed exactly when the machine gets through it and back to where it started. */
  lemma {:induction false} BlockIffBalanced(text: string, line: nat, depth: nat)
    ensures var r := Parse(text, line, depth > 0); var ts := Tokens(text, line);
      && (Balanced(ts, depth) <==> r.Ok? && BalancedAfter(r, depth))
      && (r.Ok? ==> Spelled(ts, depth) == Outline(r.ds, depth) + SpelledAfter(r, depth))
      && (r.Ok? && depth == 0 ==> r.rest == "")
    decreases |text|
  {
    hide Lex, Parse, Tokens;
    ParseUnfold(text, line, depth > 0);
    TokensUnfold(text, line);
    var t := Lex(text, Init(line));
    if t.tok.end == BlockStart || t.tok.end == Semicolon {
      MachineStep(t.tok, Tokens(t.rest, t.line), depth);
      if t.tok.args != [] {
        hide Balanced, Spelled, Outline;
        var block := Ok([], t.rest, t.line);
        if t.tok.end == BlockStart {
          block := Parse(t.rest, t.line, true);
          BlockIffBalanced(t.rest, t.line, depth + 1);
        }
        if block.Ok? {
          BlockIffBalanced(block.rest, block.line, depth);
          var more := Parse(block.rest, block.line, depth > 0);
          if more.Ok? {
            OutlineCons(FromToken(t.tok, block.ds), more.ds, depth, SpelledAfter(more, depth));
            assert [t.tok.args[0]] + t.tok.args[1..] == t.tok.args;
            NoOutline(depth + 1, Outline(more.ds, depth) + SpelledAfter(more, depth));
          }
        }
      }
    }
  }

  lemma NoOutline(depth: nat, rest: seq<Entry>)
    ensures Outline([], depth) + rest == rest
  {
  }

  /**
   A text is accepted exactly when the one-counter machine accepts its tokens: every opened block was
   closed, no closing brace was left over, no directive was empty. What is then read is the whole text,
   and the tree says what the tokens say, line numbers included.
   */
  lemma ParserIffBalanced(text: string, line: nat)
    ensures var r := Parse(text, line, false);
      && (r.Ok? <==> Balanced(Tokens(text, line), 0))
      && (r.Ok? ==> r.rest == "" && Outline(r.ds, 0) == Spelled(Tokens(text, line), 0))
  {
    hide Lex, Parse, Tokens, Balanced, Spelled, Outline;
    BlockIffBalanced(text, line, 0);
    var r := Parse(text, line, false);
    assert r.Ok? ==> Outline(r.ds, 0) + [] == Outline(r.ds, 0);
  }

  /** Nothing at level `depth` or deeper comes first. */
  predicate Above(es: seq<Entry>, depth: nat) {
    es != [] ==> es[0].depth < depth
  }

  lemma OutlineStarts(ds: seq<Directive>, depth: nat, rest: seq<Entry>)
    requires Above(rest, depth)
    ensures Above(Outline(ds, depth) + rest, depth + 1)
    ensures ds == [] <==> Above(Outline(ds, depth) + rest, depth)
  {
  }

  /** The outline determines the tree: two trees with the same outline are the same. */
  lemma {:induction false} OutlineDetermines(a: seq<Directive>, b: seq<Directive>, depth: nat,
                                             x: seq<Entry>, y: seq<Entry>)
    requires Above(x, depth) && Above(y, depth)
    requires Outline(a, depth) + x == Outline(b, depth) + y
    ensures a == b && x == y
    decreases a
  {
    OutlineStarts(a, depth, x);
    OutlineStarts(b, depth, y);
    if a != [] && b != [] {
      assert [a[0]] + a[1..] == a && [b[0]] + b[1..] == b;
      OutlineCons(a[0], a[1..], depth, x);
      OutlineCons(b[0], b[1..], depth, y);
      var afterA, afterB := Outline(a[1..], depth) + x, Outline(b[1..], depth) + y;
      var ea := Entry(depth, a[0].line, [a[0].name] + a[0].args);
      var eb := Entry(depth, b[0].line, [b[0].name] + b[0].args);
      var ca, cb := Outline(a[0].children, depth + 1) + afterA, Outline(b[0].children, depth + 1) + afterB;
      assert ([ea] + ca)[0] == ([eb] + cb)[0] && ([ea] + ca)[1..] == ca && ([eb] + cb)[1..] == cb;
      assert ([a[0].name] + a[0].args)[1..] == a[0].args && ([b[0].name] + b[0].args)[1..] == b[0].args;
      OutlineStarts(a[1..], depth, x);
      OutlineStarts(b[1..], depth, y);
      OutlineDetermines(a[0].children, b[0].children, depth + 1, afterA, afterB);
      OutlineDetermines(a[1..], b[1..], depth, x, y);
    } else {
      NoOutline(depth, x);
      NoOutline(depth, y);
    }
  }
}
