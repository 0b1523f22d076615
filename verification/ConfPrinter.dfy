/** Writing a configuration tree as text. */
module ConfPrinter {
  import opened ConfDirectives

  function Spaces(n: nat): string {
    if n == 0 then "" else " " + Spaces(n - 1)
  }

  /** Four spaces for each level below the first. */
  function Indent(level: nat): string {
    if level <= 1 then "" else Spaces(4 * (level - 1))
  }

  /** Words with one space between them. */
  function Join(ws: seq<string>): string {
    if ws == [] then "" else if |ws| == 1 then ws[0] else ws[0] + " " + Join(ws[1..])
  }

  /** The line of a directive, which opens the block of its children if it has any. */
  function Head(d: Directive, level: nat): string {
    Indent(level) + Join([d.name] + d.args) + if d.children == [] then ";\n" else " {\n"
  }

  /** The line that closes the block. */
  function Tail(d: Directive, level: nat): string {
    if d.children == [] then "" else Indent(level) + "}\n"
  }

  function PrintDir(d: Directive, level: nat): string
    decreases d
  {
    Head(d, level) + PrintAll(d.children, level + 1) + Tail(d, level)
  }

  function PrintAll(ds: seq<Directive>, level: nat): string
    decreases ds
  {
    if ds == [] then "" else PrintDir(ds[0], level) + PrintAll(ds[1..], level)
  }

  /** The text of a whole configuration; the root contributes only its children. */
  function Print(root: Directive): string {
    PrintAll(root.children, 1)
  }

  /** A block of one level, as it is written: four spaces in front, `;` behind the words, each line ended. */
  lemma PrintedLooksLike()
    ensures Print(Directive(0, "", [], [Directive(1, "a", [], [Directive(2, "b", ["c"], [])])])) == "a {\n    b c;\n}\n"
  {
    var b := Directive(2, "b", ["c"], []);
    var a := Directive(1, "a", [], [b]);
    FourSpaces();
    assert ["b"] + ["c"] == ["b", "c"] && ["b", "c"][1..] == ["c"] && ["a"] + [] == ["a"];
    hide Spaces;
    assert Head(b, 2) == "    " + "b c" + ";\n";
    assert Head(a, 1) == "a" + " {\n" && Tail(a, 1) == "}\n";
    PrintOne(b, 2);
    PrintOne(a, 1);
    assert PrintDir(b, 2) == "    b c;\n";
  }

  lemma FourSpaces()
    ensures Spaces(4) == "    "
  {
    assert Spaces(1) == " " && Spaces(2) == "  " && Spaces(3) == "   ";
  }

  lemma PrintOne(d: Directive, level: nat)
    ensures PrintAll([d], level) == PrintDir(d, level)
  {
    assert [d][1..] == [];
  }

  // ----- the writer as a method on a file -----

  class FileWriter {
    var text: string

    constructor ()
      ensures text == ""
    {
      text := "";
    }

    method Write(s: string)
      modifies this
      ensures text == old(text) + s
    {
      text := text + s;
    }
  }

  lemma {:induction false} SpacesAdd(a: nat, b: nat)
    ensures Spaces(a) + Spaces(b) == Spaces(a + b)
  {
    if a == 0 {
      assert "" + Spaces(b) == Spaces(b);
    } else {
      SpacesAdd(a - 1, b);
      assert " " + Spaces(a - 1) + Spaces(b) == " " + (Spaces(a - 1) + Spaces(b));
    }
  }

  method WriteIndent(writer: FileWriter, level: nat)
    requires level > 0
    modifies writer
    ensures writer.text == old(writer.text) + Indent(level)
  {
    var i := 0;
    while i < level - 1
      invariant 0 <= i <= level - 1
      invariant writer.text == old(writer.text) + Spaces(4 * i)
    {
      writer.Write("    ");
      SpacesAdd(4 * i, 4);
      assert Spaces(4) == "    ";
      i := i + 1;
    }
  }

  /** Adding a word at the end. */
  lemma {:induction false} JoinSnoc(ws: seq<string>, w: string)
    requires ws != []
    ensures Join(ws + [w]) == Join(ws) + " " + w
  {
    if |ws| == 1 {
      assert (ws + [w])[1..] == [w];
    } else {
      assert (ws + [w])[1..] == ws[1..] + [w];
      JoinSnoc(ws[1..], w);
      assert ws[0] + " " + (Join(ws[1..]) + " " + w) == ws[0] + " " + Join(ws[1..]) + " " + w;
    }
  }

  method WriteWords(writer: FileWriter, name: string, args: seq<string>)
    modifies writer
    ensures writer.text == old(writer.text) + Join([name] + args)
  {
    writer.Write(name);
    if args != [] {
      writer.Write(" ");
    }
    assert [name] + args[..0] == [name];
    var i := 0;
    while i < |args|
      invariant 0 <= i <= |args|
      invariant writer.text == old(writer.text) + Join([name] + args[..i])
                  + if i < |args| then " " else ""
    {
      writer.Write(args[i]);
      if i < |args| - 1 {
        writer.Write(" ");
      }
      JoinSnoc([name] + args[..i], args[i]);
      assert [name] + args[..i] + [args[i]] == [name] + args[..i + 1];
      i := i + 1;
    }
    assert args[..i] == args;
  }

  lemma {:induction false} PrintSnoc(ds: seq<Directive>, i: nat, level: nat)
    requires i < |ds|
    ensures PrintAll(ds[..i + 1], level) == PrintAll(ds[..i], level) + PrintDir(ds[i], level)
    decreases i
  {
    if i == 0 {
      assert ds[..1][1..] == [] && PrintAll(ds[..0], level) == "";
      assert PrintDir(ds[0], level) + "" == "" + PrintDir(ds[0], level);
    } else {
      PrintSnoc(ds[1..], i - 1, level);
      assert ds[..i + 1][1..] == ds[1..][..i] && ds[..i][1..] == ds[1..][..i - 1];
      assert PrintDir(ds[0], level) + (PrintAll(ds[1..][..i - 1], level) + PrintDir(ds[i], level))
          == PrintDir(ds[0], level) + PrintAll(ds[1..][..i - 1], level) + PrintDir(ds[i], level);
    }
  }

  /** The text once the first `i` directives have been written behind `text`. */
  ghost function Sofar(text: string, ds: seq<Directive>, i: nat, level: nat): string
    requires i <= |ds|
  {
    text + PrintAll(ds[..i], level)
  }

  lemma SofarStart(text: string, ds: seq<Directive>, level: nat)
    ensures Sofar(text, ds, 0, level) == text
  {
  }

  lemma SofarNext(text: string, ds: seq<Directive>, i: nat, level: nat)
    requires i < |ds|
    ensures Sofar(text, ds, i + 1, level) == Sofar(text, ds, i, level) + PrintDir(ds[i], level)
  {
    hide PrintAll, PrintDir;
    PrintSnoc(ds, i, level);
  }

  lemma SofarAll(text: string, d: Directive, level: nat)
    ensures Sofar(text + Head(d, level), d.children, |d.children|, level + 1) + Tail(d, level)
         == text + PrintDir(d, level)
    ensures Sofar(text, d.children, |d.children|, 1) == text + Print(d)
  {
    hide PrintAll, Head, Tail;
    assert d.children[..|d.children|] == d.children;
  }

  method WriteHead(d: Directive, writer: FileWriter, level: nat)
    requires level > 0
    modifies writer
    ensures writer.text == old(writer.text) + Head(d, level)
  {
    hide Indent, Join;
    WriteIndent(writer, level);
    WriteWords(writer, d.name, d.args);
    if d.children == [] {
      writer.Write(";");
    }
    if d.children != [] {
      writer.Write(" ");
      writer.Write("{");
    }
    writer.Write("\n");
    assert " " + "{" + "\n" == " {\n";
  }

  method WriteTail(d: Directive, writer: FileWriter, level: nat)
    requires level > 0
    modifies writer
    ensures writer.text == old(writer.text) + Tail(d, level)
  {
    hide Indent;
    if d.children != [] {
      WriteIndent(writer, level);
      writer.Write("}");
      writer.Write("\n");
    }
  }

  /** Writes a directive and everything below it; on level 0 only what is below. */
  method Persistence(d: Directive, writer: FileWriter, level: nat)
    modifies writer
    ensures writer.text == old(writer.text) + if level == 0 then Print(d) else PrintDir(d, level)
    decreases d
  {
    hide Head, Tail, PrintAll, PrintDir, Print, Sofar;
    ghost var start := writer.text;
    if level > 0 {
      WriteHead(d, writer, level);
    }
    ghost var head := writer.text;
    SofarStart(head, d.children, level + 1);
    var i := 0;
    while i < |d.children|
      invariant 0 <= i <= |d.children|
      invariant writer.text == Sofar(head, d.children, i, level + 1)
    {
      SofarNext(head, d.children, i, level + 1);
      Persistence(d.children[i], writer, level + 1);
      i := i + 1;
    }
    SofarAll(start, d, level);
    if level > 0 {
      WriteTail(d, writer, level);
    }
  }
}
