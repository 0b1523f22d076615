/** The list of streams to record, as the raw API edits it, is a set. */
module DvrFilters {

  predicate ApplyFilter(args: seq<string>, id: string) {
    args == [] || args == ["all"] || id in args
  }

  /** The position of the first occurrence, or the length of the list. */
  function IndexOf(args: seq<string>, id: string): (i: nat)
    ensures i <= |args|
    ensures i < |args| ==> args[i] == id
    ensures id in args <==> i < |args|
  {
    if args == [] || args[0] == id then 0 else 1 + IndexOf(args[1..], id)
  }

  function Enabled(args: seq<string>, id: string): seq<string> {
    var args1 := if args == ["all"] || args == ["none"] then [] else args;
    if id in args1 then args1 else args1 + [id]
  }

  /** The list without the first occurrence of the stream. */
  function Erase(args: seq<string>, id: string): seq<string> {
    if args == [] then [] else if args[0] == id then args[1..] else [args[0]] + Erase(args[1..], id)
  }

  lemma CutBehindFirst(x: string, rest: seq<string>, j: nat)
    requires j < |rest|
    ensures ([x] + rest)[..j + 1] + ([x] + rest)[j + 2..] == [x] + (rest[..j] + rest[j + 1..])
  {
  }

  lemma {:induction false} EraseIsCut(args: seq<string>, id: string)
    ensures Erase(args, id) ==
      var i := IndexOf(args, id); if i < |args| then args[..i] + args[i + 1..] else args
  {
    if args != [] && args[0] != id {
      EraseIsCut(args[1..], id);
      assert args == [args[0]] + args[1..];
      if id in args {
        CutBehindFirst(args[0], args[1..], IndexOf(args[1..], id));
      }
    }
  }

  function Disabled(args: seq<string>, id: string): seq<string> {
    if Erase(args, id) == [] then ["none"] else Erase(args, id)
  }

  class DvrApply {
    var args: seq<string>

    constructor (args: seq<string>)
      ensures this.args == args
    {
      this.args := args;
    }

    /** `told` is what the subscribers answer; the list is edited whatever they say. */
    method RawEnableDvr(stream: string, told: int) returns (ret: int, applied: bool)
      modifies this
      ensures args == Enabled(old(args), stream)
      ensures ret == told && (applied <==> told == 0)
    {
      applied := false;
      if |args| == 1 && (args[0] == "all" || args[0] == "none") {
        args := [];
      }
      if IndexOf(args, stream) == |args| {
        args := args + [stream];
      }
      ret := told;
      if ret != 0 {
        return;
      }
      applied := true;
    }

    method RawDisableDvr(stream: string, told: int) returns (ret: int, applied: bool)
      modifies this
      ensures args == Disabled(old(args), stream)
      ensures ret == told && (applied <==> told == 0)
    {
      applied := false;
      EraseIsCut(args, stream);
      var it := IndexOf(args, stream);
      if it < |args| {
        args := args[..it] + args[it + 1..];
      }
      if args == [] {
        args := args + ["none"];
      }
      ret := told;
      if ret != 0 {
        return;
      }
      applied := true;
    }

    method Accepts(app: string, stream: string) returns (yes: bool)
      ensures yes == ApplyFilter(args, app + "/" + stream)
    {
      if args == [] {
        return true;
      }
      if |args| == 1 && args[0] == "all" {
        return true;
      }
      return IndexOf(args, app + "/" + stream) < |args|;
    }
  }

  // ----- runs -----

  datatype Op = Enable(id: string) | Disable(id: string)

  function Step(args: seq<string>, op: Op): seq<string> {
    match op
    case Enable(id) => Enabled(args, id)
    case Disable(id) => Disabled(args, id)
  }

  function Run(args: seq<string>, ops: seq<Op>): seq<string> {
    if ops == [] then args else Step(Run(args, ops[..|ops| - 1]), ops[|ops| - 1])
  }

  /** The last operation on this stream was to enable it. */
  predicate LastEnabled(ops: seq<Op>, id: string) {
    ops != [] &&
    var op := ops[|ops| - 1];
    if op.id == id then op.Enable? else LastEnabled(ops[..|ops| - 1], id)
  }

  predicate NoDuplicates(args: seq<string>) {
    forall i, j | 0 <= i < j < |args| :: args[i] != args[j]
  }

  /** The two words of the list that do not name a stream. */
  predicate IsWord(id: string) {
    id == "all" || id == "none"
  }

  /** Either the word for no stream at all, or the streams themselves. */
  predicate Clean(args: seq<string>) {
    args != [] && NoDuplicates(args) && (args == ["none"] || forall a | a in args :: !IsWord(a))
  }

  lemma EnabledMembers(args: seq<string>, id: string)
    requires Clean(args) && !IsWord(id)
    ensures Clean(Enabled(args, id))
    ensures forall x :: !IsWord(x) ==> (x in Enabled(args, id) <==> x == id || x in args)
  {
    var args1 := if args == ["all"] || args == ["none"] then [] else args;
    assert Enabled(args, id) == if id in args1 then args1 else args1 + [id];
  }

  lemma NoDuplicatesFirst(x: string, rest: seq<string>)
    ensures NoDuplicates([x] + rest) <==> x !in rest && NoDuplicates(rest)
  {
    assert forall k | 0 <= k < |rest| :: ([x] + rest)[k + 1] == rest[k];
    if NoDuplicates([x] + rest) {
      forall k | 0 <= k < |rest|
        ensures rest[k] != x
      {
        assert ([x] + rest)[0] != ([x] + rest)[k + 1];
      }
      forall i, j | 0 <= i < j < |rest|
        ensures rest[i] != rest[j]
      {
        assert ([x] + rest)[i + 1] != ([x] + rest)[j + 1];
      }
    }
  }

  lemma {:induction false} Erased(args: seq<string>, id: string)
    requires NoDuplicates(args)
    ensures NoDuplicates(Erase(args, id)) && forall x :: x in Erase(args, id) <==> x in args && x != id
  {
    hide NoDuplicates;
    if args != [] {
      assert args == [args[0]] + args[1..];
      NoDuplicatesFirst(args[0], args[1..]);
      Erased(args[1..], id);
      NoDuplicatesFirst(args[0], Erase(args[1..], id));
    }
  }

  lemma DisabledMembers(args: seq<string>, id: string)
    requires Clean(args) && !IsWord(id)
    ensures Clean(Disabled(args, id))
    ensures forall x :: !IsWord(x) ==> (x in Disabled(args, id) <==> x in args && x != id)
  {
    Erased(args, id);
    if args == ["none"] {
      assert args[1..] == [];
    }
  }

  /**
   From `none`, whatever sequence of enable and disable on streams: the filter accepts exactly the
   streams whose last operation was enable, and the list is never empty and names no stream twice.
   */
  lemma {:induction false} FilterIsLastEnabled(ops: seq<Op>)
    requires forall op | op in ops :: !IsWord(op.id)
    ensures Clean(Run(["none"], ops))
    ensures forall id :: !IsWord(id) ==> (ApplyFilter(Run(["none"], ops), id) <==> LastEnabled(ops, id))
  {
    if ops != [] {
      var before, op := ops[..|ops| - 1], ops[|ops| - 1];
      assert op in ops && forall o | o in before :: o in ops;
      FilterIsLastEnabled(before);
      var args := Run(["none"], before);
      match op {
        case Enable(id) => EnabledMembers(args, id);
        case Disable(id) => DisabledMembers(args, id);
      }
      forall id | !IsWord(id)
        ensures ApplyFilter(Step(args, op), id) <==> LastEnabled(ops, id)
      {
        CleanFilter(args, id);
        CleanFilter(Step(args, op), id);
      }
    }
  }

  lemma CleanFilter(args: seq<string>, id: string)
    requires Clean(args)
    ensures ApplyFilter(args, id) <==> id in args
  {
    assert "all" in ["all"];
  }

  /** What is recorded: of the streams of any app, those whose last operation was enable. */
  lemma RecordsLastEnabled(ops: seq<Op>, app: string, stream: string)
    requires forall op | op in ops :: '/' in op.id
    ensures ApplyFilter(Run(["none"], ops), app + "/" + stream) <==> LastEnabled(ops, app + "/" + stream)
  {
    assert (app + "/" + stream)[|app|] == '/';
    FilterIsLastEnabled(ops);
  }

  /**
   Enabling a stream on any list: it is accepted, and so is every stream the list named, and no other;
   the list that accepts everything, `all` or the empty one, is replaced by the stream alone.
   */
  lemma EnabledIff(args: seq<string>, id: string, other: string)
    requires id != "all" && other != "all" && other != "none"
    ensures ApplyFilter(Enabled(args, id), other) <==> other == id || other in args
    ensures args == ["all"] || args == ["none"] || args == [] ==> Enabled(args, id) == [id]
  {
    var args1 := if args == ["all"] || args == ["none"] then [] else args;
    assert id in Enabled(args, id) && Enabled(args, id) != ["all"];
    assert other in Enabled(args, id) <==> other == id || other in args1;
  }

  /** How often the list names the stream. */
  function Occurrences(args: seq<string>, id: string): nat {
    if args == [] then 0 else (if args[0] == id then 1 else 0) + Occurrences(args[1..], id)
  }

  /** Erasing takes one occurrence away, and leaves `all` alone exactly of the two lists that say both. */
  lemma {:induction false} ErasedCount(args: seq<string>, id: string)
    ensures Occurrences(args, id) > 0 <==> id in args
    ensures Occurrences(Erase(args, id), id) == if id in args then Occurrences(args, id) - 1 else 0
  {
    if args != [] {
      ErasedCount(args[1..], id);
      assert args == [args[0]] + args[1..];
      if args[0] != id {
        assert ([args[0]] + Erase(args[1..], id))[1..] == Erase(args[1..], id);
      }
    }
  }

  lemma ErasedToAll(args: seq<string>, id: string)
    requires id in args && id != "all"
    ensures Erase(args, id) == ["all"] <==> args == ["all", id] || args == [id, "all"]
  {
    assert args == [args[0]] + args[1..];
    if args[0] == id {
      assert args[1..] == ["all"] <==> args == [id, "all"];
    } else {
      assert args[1..] == [args[1]] + args[1..][1..];
      assert Erase(args[1..], id) == [] <==> args[1..] == [id];
    }
  }

  /**
   Disabling works on every list exactly when the list names the stream at most once and does not say
   `all`, alone or next to the stream.
   */
  lemma DisableWorksIff(args: seq<string>, id: string)
    requires !IsWord(id)
    ensures !ApplyFilter(Disabled(args, id), id) <==>
      Occurrences(args, id) <= 1 && args != ["all"] && args != ["all", id] && args != [id, "all"]
  {
    ErasedCount(args, id);
    ErasedCount(Erase(args, id), id);
    if id in args {
      ErasedToAll(args, id);
    }
    hide Occurrences;
  }

  /** A configured list that names a stream twice: disabling it once changes nothing for it. */
  lemma DisablingDuplicateFails()
    ensures Disabled(["live/a", "live/a"], "live/a") == ["live/a"]
    ensures ApplyFilter(Disabled(["live/a", "live/a"], "live/a"), "live/a")
  {
    assert Disabled(["live/a", "live/a"], "live/a") == [] + ["live/a", "live/a"][1..];
  }
}
