/** The configuration tree. */
module ConfDirectives {
  import opened Messages

  /** A directive: the line it was read from, its name and arguments, and the block behind it. */
  datatype Directive = Directive(line: int, name: string, args: seq<string>, children: seq<Directive>)
  {
    function Arg0(): string {
      if args == [] then "" else args[0]
    }

    predicate IsVhost() {
      name == "vhost"
    }
  }

  /** The position of the first child with this name, or the number of children. */
  function Find(ds: seq<Directive>, name: string): (i: nat)
    ensures i <= |ds|
    ensures i < |ds| ==> ds[i].name == name
    ensures forall j | 0 <= j < i :: ds[j].name != name
  {
    if ds == [] || ds[0].name == name then 0 else 1 + Find(ds[1..], name)
  }

  function Get(ds: seq<Directive>, name: string): Option<Directive> {
    var i := Find(ds, name);
    if i < |ds| then Some(ds[i]) else None
  }

  /** The position of the first child with this name and first argument. */
  function Find2(ds: seq<Directive>, name: string, arg0: string): (i: nat)
    ensures i <= |ds|
    ensures i < |ds| ==> ds[i].name == name && ds[i].Arg0() == arg0
    ensures forall j | 0 <= j < i :: !(ds[j].name == name && ds[j].Arg0() == arg0)
  {
    if ds == [] || (ds[0].name == name && ds[0].Arg0() == arg0) then 0 else 1 + Find2(ds[1..], name, arg0)
  }

  function Get2(ds: seq<Directive>, name: string, arg0: string): Option<Directive> {
    var i := Find2(ds, name, arg0);
    if i < |ds| then Some(ds[i]) else None
  }

  /** A new directive carries no line; the program leaves the field unset. */
  function New(name: string): Directive {
    Directive(0, name, [], [])
  }

  function SetArg0(d: Directive, a: string): Directive {
    if d.Arg0() == a then d
    else d.(args := [a] + if d.args == [] then [] else d.args[1..])
  }

  // ----- equality -----

  /** The tree without line numbers: what two configurations have to share to be the same. */
  function Plain(d: Directive): Directive {
    Directive(0, d.name, d.args, PlainAll(d.children))
  }

  function PlainAll(ds: seq<Directive>): (r: seq<Directive>)
    ensures |r| == |ds|
  {
    if ds == [] then [] else [Plain(ds[0])] + PlainAll(ds[1..])
  }

  predicate EqualsSelf(a: Directive, b: Directive) {
    && a.name == b.name
    && |a.args| == |b.args|
    && (forall i | 0 <= i < |a.args| :: a.args[i] == b.args[i])
    && |a.children| == |b.children|
  }

  predicate EqualsDeep(a: Directive, b: Directive)
    decreases a
  {
    && EqualsSelf(a, b)
    && forall i | 0 <= i < |a.children| :: EqualsDeep(a.children[i], b.children[i])
  }

  /** The comparison that decides whether a section of the configuration changed. */
  predicate Equals(a: Option<Directive>, b: Option<Directive>) {
    if a.None? && b.None? then true
    else if a.None? || b.None? then false
    else EqualsDeep(a.value, b.value)
  }

  lemma {:induction false} PlainAllAt(ds: seq<Directive>, i: nat)
    requires i < |ds|
    ensures PlainAll(ds)[i] == Plain(ds[i])
  {
    if i > 0 {
      PlainAllAt(ds[1..], i - 1);
    }
  }

  /** The comparison holds exactly of trees that differ at most in their line numbers. */
  lemma {:induction false} EqualsIffSamePlain(a: Directive, b: Directive)
    ensures EqualsDeep(a, b) <==> Plain(a) == Plain(b)
    decreases a
  {
    if EqualsSelf(a, b) {
      assert a.args == b.args;
      forall i | 0 <= i < |a.children|
        ensures EqualsDeep(a.children[i], b.children[i]) <==> PlainAll(a.children)[i] == PlainAll(b.children)[i]
      {
        EqualsIffSamePlain(a.children[i], b.children[i]);
        PlainAllAt(a.children, i);
        PlainAllAt(b.children, i);
      }
    }
  }

  /** The words at the end of a path of child positions, if it ends in the tree. */
  function WordsAt(d: Directive, path: seq<nat>): Option<seq<string>>
    decreases path
  {
    if path == [] then Some([d.name] + d.args)
    else if path[0] < |d.children| then WordsAt(d.children[path[0]], path[1..])
    else None
  }

  predicate SameWords(a: Directive, b: Directive, path: seq<nat>) {
    WordsAt(a, path) == WordsAt(b, path)
  }

  /** Being the same up to line numbers is having the same words at the same places. */
  lemma {:induction false} SamePlainIffSameWords(a: Directive, b: Directive)
    ensures Plain(a) == Plain(b) <==> forall path :: SameWords(a, b, path)
  {
    if Plain(a) == Plain(b) {
      forall path ensures SameWords(a, b, path) {
        SamePlainSameWords(a, b, path);
      }
    } else if forall path :: SameWords(a, b, path) {
      SameWordsSamePlain(a, b);
    }
  }

  lemma {:induction false} SameWordsSamePlain(a: Directive, b: Directive)
    requires forall path :: SameWords(a, b, path)
    ensures Plain(a) == Plain(b)
    decreases a
  {
    assert SameWords(a, b, []);
    assert ([a.name] + a.args)[1..] == a.args && ([b.name] + b.args)[1..] == b.args;
    assert ([a.name] + a.args)[0] == ([b.name] + b.args)[0];
    SameWidth(a, b);
    forall i | 0 <= i < |a.children| ensures PlainAll(a.children)[i] == PlainAll(b.children)[i] {
      forall path ensures SameWords(a.children[i], b.children[i], path) {
        assert ([i] + path)[1..] == path && SameWords(a, b, [i] + path);
      }
      SameWordsSamePlain(a.children[i], b.children[i]);
      PlainAllAt(a.children, i);
      PlainAllAt(b.children, i);
    }
    assert PlainAll(a.children) == PlainAll(b.children);
  }

  lemma WidthAt(d: Directive, n: nat)
    ensures WordsAt(d, [n]).Some? <==> n < |d.children|
  {
    assert [n][1..] == [];
    if n < |d.children| {
      assert WordsAt(d.children[n], []).Some?;
    }
  }

  lemma SameWidth(a: Directive, b: Directive)
    requires forall path :: SameWords(a, b, path)
    ensures |a.children| == |b.children|
  {
    var m, n := |a.children|, |b.children|;
    assert SameWords(a, b, [m]) && SameWords(a, b, [n]);
    WidthAt(a, m);
    WidthAt(a, n);
    WidthAt(b, m);
    WidthAt(b, n);
  }

  lemma {:induction false} SamePlainSameWords(a: Directive, b: Directive, path: seq<nat>)
    requires Plain(a) == Plain(b)
    ensures SameWords(a, b, path)
    decreases path
  {
    if path != [] && path[0] < |a.children| {
      PlainAllAt(a.children, path[0]);
      PlainAllAt(b.children, path[0]);
      SamePlainSameWords(a.children[path[0]], b.children[path[0]], path[1..]);
    }
  }
}
