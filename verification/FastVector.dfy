/** The growable array under every message queue; its operations refine sequence operations. */
module FastVectors {

  const MW_MSGS := 128

  class FastVector<T(0)> {
    var msgs: array<T>
    var nbMsgs: nat
    var count: nat

    ghost predicate Valid()
      reads this
    {
      0 < nbMsgs == msgs.Length && count <= nbMsgs
    }

    ghost function Contents(): seq<T>
      requires Valid()
      reads this, msgs
    {
      msgs[..count]
    }

    constructor ()
      ensures Valid() && fresh(msgs) && Contents() == []
    {
      count := 0;
      nbMsgs := MW_MSGS * 8;
      msgs := new T[MW_MSGS * 8];
    }

    function Size(): (n: nat)
      requires Valid()
      reads this, msgs
      ensures n == |Contents()|
    {
      count
    }

    function At(index: nat): (msg: T)
      requires Valid() && index < |Contents()|
      reads this, msgs
      ensures msg == Contents()[index]
    {
      msgs[index]
    }

    method Clear()
      requires Valid()
      modifies this`count
      ensures Valid() && Contents() == []
    {
      count := 0;
    }

    /** Moves everything from `end` on down to `begin`, in place. */
    method Erase(begin: nat, end: nat)
      requires Valid() && begin < end <= |Contents()|
      modifies this`count, msgs
      ensures Valid() && Contents() == old(Contents()[..begin] + Contents()[end..])
    {
      ghost var was := Contents();
      var i := 0;
      while i < count - end
        invariant 0 <= i <= count - end
        invariant count == old(count) && msgs == old(msgs)
        invariant forall k | 0 <= k < begin :: msgs[k] == was[k]
        invariant forall k | begin <= k < begin + i :: msgs[k] == was[k - begin + end]
        invariant forall k | end + i <= k < count :: msgs[k] == was[k]
      {
        msgs[begin + i] := msgs[end + i];
        i := i + 1;
      }
      count := count - (end - begin);
    }

    /** Doubles the array when it is full. */
    method PushBack(msg: T)
      requires Valid()
      modifies this, msgs
      ensures Valid() && Contents() == old(Contents()) + [msg]
      ensures msgs == old(msgs) || fresh(msgs)
    {
      if count >= nbMsgs {
        var size := nbMsgs * 2;
        var buf := new T[size];
        var i := 0;
        while i < nbMsgs
          invariant 0 <= i <= nbMsgs
          invariant nbMsgs == old(nbMsgs) && count == old(count) && msgs == old(msgs)
          invariant msgs[..] == old(msgs[..])
          invariant buf[..i] == msgs[..i]
        {
          buf[i] := msgs[i];
          i := i + 1;
        }
        msgs := buf;
        nbMsgs := size;
      }
      msgs[count] := msg;
      count := count + 1;
    }

    /** Frees every message held; `freed` are the objects released. */
    method Free() returns (ghost freed: seq<T>)
      requires Valid()
      modifies this`count
      ensures Valid() && Contents() == [] && freed == old(Contents())
    {
      freed := [];
      var i := 0;
      while i < count
        invariant 0 <= i <= count == old(count)
        invariant Valid() && msgs == old(msgs) && freed == msgs[..i]
      {
        freed := freed + [msgs[i]];
        i := i + 1;
      }
      count := 0;
    }
  }
}
