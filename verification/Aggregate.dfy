/**
 Splitting an aggregate message into its sub-messages (Adobe RTMP 1.0, section 7.1.6).

 A sub-message on the wire is: type (1 byte), data size (3), timestamp low (3) and high (1),
 stream id (3), the data, and the previous tag size (4). Bit 31 of the timestamp is dropped.
 */
module Aggregates {
  import opened Messages

  const SUCCESS := 0
  const ERROR_KERNEL_STREAM_INIT := 3038
  const ERROR_RTMP_AGGREGATE := 2024

  const MSG_AUDIO: byte := 8
  const MSG_VIDEO: byte := 9

  /** A sub-message as decoded, before its timestamp is rebased. */
  datatype Sub = Sub(msgType: byte, time: nat, streamId: nat, data: seq<byte>)
  {
    predicate IsAv() {
      msgType == MSG_AUDIO || msgType == MSG_VIDEO
    }
  }

  function U24(b: seq<byte>): (n: nat)
    requires |b| == 3
    ensures n < 0x100_0000
  {
    (b[0] as nat) * 65536 + (b[1] as nat) * 256 + b[2] as nat
  }

  /** The high byte on top of the low three, without the sign bit. */
  function JoinTime(low: nat, high: byte): (n: nat)
    requires low < 0x100_0000
    ensures n < 0x8000_0000 && n % 0x100_0000 == low
  {
    (high as nat % 128) * 0x100_0000 + low
  }

  function U31(low: seq<byte>, high: byte): (n: nat)
    requires |low| == 3
  {
    JoinTime(U24(low), high)
  }

  // ----- what a sub-message looks like, stated on its bytes -----

  predicate IsTag(p: seq<byte>, t: Sub) {
    && |p| == 15 + |t.data|
    && p[0] == t.msgType
    && U24(p[1..4]) == |t.data|
    && U31(p[4..7], p[7]) == t.time
    && U24(p[8..11]) == t.streamId
    && p[11..11 + |t.data|] == t.data
  }

  // ----- the decoder -----

  predicate HasTag(b: seq<byte>) {
    |b| >= 11 && |b| >= 15 + U24(b[1..4])
  }

  function FirstTag(b: seq<byte>): Sub
    requires HasTag(b)
  {
    Sub(b[0], U31(b[4..7], b[7]), U24(b[8..11]), b[11..11 + U24(b[1..4])])
  }

  function AfterTag(b: seq<byte>): (rest: seq<byte>)
    requires HasTag(b)
    ensures |rest| < |b|
  {
    b[15 + U24(b[1..4])..]
  }

  /** All complete sub-messages at the front of `b`. */
  function Tags(b: seq<byte>): seq<Sub> {
    if HasTag(b) then [FirstTag(b)] + Tags(AfterTag(b)) else []
  }

  /** What follows them. */
  function Leftover(b: seq<byte>): seq<byte> {
    if HasTag(b) then Leftover(AfterTag(b)) else b
  }

  function Flatten(pieces: seq<seq<byte>>): seq<byte> {
    if pieces == [] then [] else pieces[0] + Flatten(pieces[1..])
  }

  predicate AreTags(pieces: seq<seq<byte>>, ts: seq<Sub>) {
    |pieces| == |ts| && forall i | 0 <= i < |ts| :: IsTag(pieces[i], ts[i])
  }

  lemma TagAtFront(p: seq<byte>, t: Sub, rest: seq<byte>)
    requires IsTag(p, t)
    ensures HasTag(p + rest) && FirstTag(p + rest) == t && AfterTag(p + rest) == rest
  {
    var b := p + rest;
    assert b[1..4] == p[1..4] && b[4..7] == p[4..7] && b[8..11] == p[8..11];
    assert b[11..11 + |t.data|] == p[11..11 + |t.data|];
  }

  lemma FirstTagIsTag(b: seq<byte>)
    requires HasTag(b)
    ensures IsTag(b[..15 + U24(b[1..4])], FirstTag(b))
  {
    var n := U24(b[1..4]);
    var p := b[..15 + n];
    assert p[1..4] == b[1..4] && p[4..7] == b[4..7] && p[8..11] == b[8..11];
    assert p[11..11 + n] == b[11..11 + n];
  }

  /**
   The split of a byte string into sub-messages is unique: any way to read `b` as complete
   sub-messages followed by something that does not start with one is what the decoder finds.
   */
  lemma {:induction false} SplitUnique(pieces: seq<seq<byte>>, ts: seq<Sub>, rest: seq<byte>)
    requires AreTags(pieces, ts) && !HasTag(rest)
    ensures Tags(Flatten(pieces) + rest) == ts && Leftover(Flatten(pieces) + rest) == rest
  {
    if pieces == [] {
      assert Flatten(pieces) + rest == rest;
    } else {
      SplitUnique(pieces[1..], ts[1..], rest);
      assert Flatten(pieces) + rest == pieces[0] + (Flatten(pieces[1..]) + rest);
      TagAtFront(pieces[0], ts[0], Flatten(pieces[1..]) + rest);
    }
  }

  /** `b` reads as the sub-messages `ts`, whose bytes are `pieces`, with nothing complete behind them. */
  predicate Reads(b: seq<byte>, pieces: seq<seq<byte>>, ts: seq<Sub>, rest: seq<byte>) {
    AreTags(pieces, ts) && !HasTag(rest) && Flatten(pieces) + rest == b
  }

  lemma ReadsCons(b: seq<byte>, pieces: seq<seq<byte>>, ts: seq<Sub>, rest: seq<byte>)
    requires HasTag(b) && Reads(AfterTag(b), pieces, ts, rest)
    ensures Reads(b, [b[..15 + U24(b[1..4])]] + pieces, [FirstTag(b)] + ts, rest)
  {
    hide IsTag, U24;
    FirstTagIsTag(b);
    var p := b[..15 + U24(b[1..4])];
    assert ([p] + pieces)[1..] == pieces;
    assert p + Flatten(pieces) + rest == p + (Flatten(pieces) + rest);
  }

  /** And such a split always exists: the decoder dispatches exactly the well-formed prefix. */
  lemma {:induction false} SplitExists(b: seq<byte>) returns (pieces: seq<seq<byte>>)
    ensures Reads(b, pieces, Tags(b), Leftover(b))
  {
    if HasTag(b) {
      hide Reads, U24, FirstTag;
      var more := SplitExists(AfterTag(b));
      ReadsCons(b, more, Tags(AfterTag(b)), Leftover(AfterTag(b)));
      pieces := [b[..15 + U24(b[1..4])]] + more;
    } else {
      pieces := [];
      assert Flatten(pieces) + b == b;
    }
  }

  // ----- the encoder of section 7.1.6 -----

  function Bytes24(n: nat): (b: seq<byte>)
    requires n < 0x100_0000
    ensures |b| == 3 && U24(b) == n
  {
    [(n / 65536) as byte, (n / 256 % 256) as byte, (n % 256) as byte]
  }

  predicate Encodable(t: Sub) {
    |t.data| < 0x100_0000 && t.time < 0x8000_0000 && t.streamId < 0x100_0000
  }

  /** One sub-message with its previous tag size, the size including the header. */
  function Encode(t: Sub): (p: seq<byte>)
    requires Encodable(t)
    ensures IsTag(p, t)
  {
    var back := 11 + |t.data|;
    var head := [t.msgType] + Bytes24(|t.data|) + Bytes24(t.time % 0x100_0000)
                + [(t.time / 0x100_0000) as byte] + Bytes24(t.streamId);
    var p := head + t.data + [(back / 0x100_0000) as byte] + Bytes24(back % 0x100_0000);
    assert p[1..4] == Bytes24(|t.data|);
    assert p[4..7] == Bytes24(t.time % 0x100_0000);
    assert p[8..11] == Bytes24(t.streamId);
    assert p[11..11 + |t.data|] == t.data;
    p
  }

  function EncodeAll(ts: seq<Sub>): seq<byte>
    requires forall t | t in ts :: Encodable(t)
  {
    if ts == [] then [] else Encode(ts[0]) + EncodeAll(ts[1..])
  }

  /** Decoding is the inverse of encoding, on every list of sub-messages. */
  lemma {:induction false} DecodeEncode(ts: seq<Sub>)
    requires forall t | t in ts :: Encodable(t)
    ensures Tags(EncodeAll(ts)) == ts && Leftover(EncodeAll(ts)) == []
  {
    if ts != [] {
      DecodeEncode(ts[1..]);
      TagAtFront(Encode(ts[0]), ts[0], EncodeAll(ts[1..]));
    }
  }

  /**
   What the bytes mean, place by place: type, three bytes of size, three of time and a fourth on top of
   them, three of stream id, the data, four bytes of previous size.
   */
  lemma TagByBytes(head: seq<byte>, data: seq<byte>, back: seq<byte>, rest: seq<byte>)
    requires |head| == 11 && |back| == 4
    requires |data| == head[1] as int * 65536 + head[2] as int * 256 + head[3] as int
    ensures var b := head + data + back + rest;
      && HasTag(b) && AfterTag(b) == rest
      && FirstTag(b) ==
           Sub(head[0],
               (head[7] as nat % 128) * 16777216 + head[4] as nat * 65536 + head[5] as nat * 256 + head[6] as nat,
               head[8] as nat * 65536 + head[9] as nat * 256 + head[10] as nat,
               data)
  {
    var b := head + data + back + rest;
    assert b[1..4] == head[1..4] && b[4..7] == head[4..7] && b[8..11] == head[8..11];
    assert b[11..11 + |data|] == data && b[15 + |data|..] == rest;
  }

  /** Eleven bytes are needed for a head, and what it says, with four more, for the rest. */
  lemma NoTagIff(b: seq<byte>)
    ensures HasTag(b) <==> |b| >= 11 && |b| >= 15 + b[1] as int * 65536 + b[2] as int * 256 + b[3] as int
  {
  }

  // ----- timestamps -----

  /** The rebasing delta after a sub-message, where -1 stands for "not yet known". */
  function NextDelta(header: int, delta: int, t: Sub): int {
    if delta == -1 then header - t.time else delta
  }

  /** The absolute timestamps the splitter assigns, one per sub-message. */
  function Rebased(header: int, delta: int, ts: seq<Sub>): (r: seq<int>)
    ensures |r| == |ts|
    decreases ts
  {
    if ts == [] then []
    else
      var d := NextDelta(header, delta, ts[0]);
      [ts[0].time + d] + Rebased(header, d, ts[1..])
  }

  lemma {:induction false} RebasedKnown(header: int, delta: int, ts: seq<Sub>, i: nat)
    requires delta != -1 && i < |ts|
    ensures Rebased(header, delta, ts)[i] == ts[i].time + delta
  {
    if i > 0 {
      RebasedKnown(header, delta, ts[1..], i - 1);
    }
  }

  /** While the delta is -1 and the times stay the same, every sub-message gets the header time. */
  lemma {:induction false} RebasedUnknown(header: int, ts: seq<Sub>, k: nat, i: nat)
    requires i < |ts| && k <= |ts| && 0 < k
    requires forall j | 0 <= j < k :: header - ts[j].time == -1
    requires k < |ts| ==> header - ts[k].time != -1
    ensures Rebased(header, -1, ts)[i] ==
            if i < k then header else ts[i].time + header - ts[k].time
  {
    if i > 0 {
      if k > 1 {
        RebasedUnknown(header, ts[1..], k - 1, i - 1);
      } else {
        var rest := ts[1..];
        RebasedKnown(header, header - rest[0].time, rest, i - 1);
      }
    }
  }

  /** Spacing is kept: sub-message `i` is stamped the header time plus its distance from the first. */
  predicate SpacingKept(header: int, ts: seq<Sub>, i: nat)
    requires i < |ts|
  {
    Rebased(header, -1, ts)[i] == header + ts[i].time - ts[0].time
  }

  lemma {:induction false} FirstChange(ts: seq<Sub>, i: nat) returns (k: nat)
    requires i < |ts|
    ensures 0 < k <= |ts| && (forall j | 0 <= j < k :: ts[j].time == ts[0].time)
    ensures k < |ts| ==> ts[k].time != ts[0].time
  {
    k := 1;
    while k < |ts| && ts[k].time == ts[0].time
      invariant 1 <= k <= |ts| && forall j | 0 <= j < k :: ts[j].time == ts[0].time
    {
      k := k + 1;
    }
  }

  /**
   The spacing of the dispatched sub-messages is kept exactly when the header is not one below the
   first sub-message, or no audio or video comes at or after the first change of timestamp: a delta
   of -1 reads as "not yet known" and is computed again.
   */
  lemma {:induction false} SpacingKeptIff(header: int, ts: seq<Sub>)
    requires |ts| > 0
    ensures (forall i | 0 <= i < |ts| && ts[i].IsAv() :: SpacingKept(header, ts, i))
       <==> header - ts[0].time != -1
            || forall i, j | 0 <= j <= i < |ts| && ts[i].IsAv() :: ts[j].time == ts[0].time
  {
    var d := header - ts[0].time;
    if d != -1 {
      forall i | 0 <= i < |ts| ensures SpacingKept(header, ts, i) {
        if i > 0 {
          RebasedKnown(header, d, ts[1..], i - 1);
        }
      }
    } else {
      var k := FirstChange(ts, 0);
      forall i | 0 <= i < |ts| ensures SpacingKept(header, ts, i) <==> i < k {
        RebasedUnknown(header, ts, k, i);
      }
      if i :| k <= i < |ts| && ts[i].IsAv() {
        assert ts[k].time != ts[0].time;
        assert !SpacingKept(header, ts, i);
      }
    }
  }

  /** A header at 99 and audio at 100 and 140: both are stamped 99, where the second belongs at 139. */
  lemma SpacingCanBeLost(data: seq<byte>)
    ensures var ts := [Sub(MSG_AUDIO, 100, 0, data), Sub(MSG_AUDIO, 140, 0, data)];
      Rebased(99, -1, ts) == [99, 99] && !SpacingKept(99, ts, 1)
  {
    var a, b := Sub(MSG_AUDIO, 100, 0, data), Sub(MSG_AUDIO, 140, 0, data);
    assert [a, b][1..] == [b] && [b][1..] == [];
    assert Rebased(99, -1, [b]) == [99];
  }

  // ----- the read cursor -----

  class Buffer {
    var bytes: seq<byte>
    var pos: nat

    ghost predicate Valid()
      reads this
    {
      pos <= |bytes|
    }

    ghost function Rest(): seq<byte>
      requires Valid()
      reads this
    {
      bytes[pos..]
    }

    constructor ()
      ensures Valid() && Rest() == []
    {
      bytes := [];
      pos := 0;
    }

    method Initialize(b: seq<byte>) returns (ret: int)
      requires Valid()
      modifies this
      ensures Valid()
      ensures ret == if b == [] then ERROR_KERNEL_STREAM_INIT else SUCCESS
      ensures Rest() == if b == [] then old(Rest()) else b
    {
      if |b| <= 0 {
        return ERROR_KERNEL_STREAM_INIT;
      }
      bytes := b;
      pos := 0;
      ret := SUCCESS;
    }

    predicate Empty()
      requires Valid()
      reads this
      ensures Empty() <==> Rest() == []
    {
      pos >= |bytes|
    }

    predicate Require(n: nat)
      requires Valid()
      reads this
      ensures Require(n) <==> n <= |Rest()|
    {
      n <= |bytes| - pos
    }

    method Read1Bytes() returns (v: byte)
      requires Valid() && |Rest()| >= 1
      modifies this
      ensures Valid() && bytes == old(bytes) && pos == old(pos) + 1 && v == bytes[old(pos)]
    {
      v := bytes[pos];
      pos := pos + 1;
    }

    method Read3Bytes() returns (v: nat)
      requires Valid() && |Rest()| >= 3
      modifies this
      ensures Valid() && bytes == old(bytes) && pos == old(pos) + 3 && v == U24(bytes[pos - 3..pos])
    {
      v := U24(bytes[pos..pos + 3]);
      pos := pos + 3;
    }

    /** Skips the previous tag size, which the splitter never looks at. */
    method Read4Bytes()
      requires Valid() && |Rest()| >= 4
      modifies this
      ensures Valid() && bytes == old(bytes) && pos == old(pos) + 4
    {
      pos := pos + 4;
    }

    method ReadBytes(n: nat) returns (data: seq<byte>)
      requires Valid() && |Rest()| >= n
      modifies this
      ensures Valid() && bytes == old(bytes) && pos == old(pos) + n && data == bytes[pos - n..pos]
    {
      data := bytes[pos..pos + n];
      pos := pos + n;
    }

    /** Reads the eleven bytes before the data. */
    method ReadHeader() returns (ok: bool, msgType: byte, dataSize: nat, time: nat, streamId: nat)
      requires Valid() && Rest() != []
      modifies this
      ensures Valid() && bytes == old(bytes) && (ok <==> |old(Rest())| >= 11)
      ensures ok ==> (
        var b := old(Rest());
        && pos == old(pos) + 11 && msgType == b[0] && dataSize == U24(b[1..4])
        && time == U31(b[4..7], b[7]) && streamId == U24(b[8..11]))
    {
      hide U24, JoinTime;
      ghost var b, start := Rest(), pos;
      ok, msgType, dataSize, time, streamId := false, 0, 0, 0, 0;
      if !Require(1) {
        return;
      }
      msgType := Read1Bytes();
      if !Require(3) {
        return;
      }
      dataSize := Read3Bytes();
      assert bytes[start + 1..start + 4] == b[1..4];
      if !Require(3) {
        return;
      }
      time := Read3Bytes();
      assert bytes[start + 4..start + 7] == b[4..7];
      if !Require(1) {
        return;
      }
      var timeHigh := Read1Bytes();
      time := JoinTime(time, timeHigh);
      if !Require(3) {
        return;
      }
      streamId := Read3Bytes();
      assert bytes[start + 8..start + 11] == b[8..11];
      ok := true;
    }

    /**
     Reads one sub-message and rebases its timestamp. The size is read unsigned, so the test for a
     negative size that follows it in the program never fires.
     */
    method ReadSub(header: int, delta: int) returns (ok: bool, sub: Sub, timestamp: int, delta': int)
      requires Valid() && Rest() != []
      modifies this
      ensures Valid() && (ok <==> HasTag(old(Rest())))
      ensures ok ==> (sub == FirstTag(old(Rest())) && Rest() == AfterTag(old(Rest()))
                      && delta' == NextDelta(header, delta, sub) && timestamp == sub.time + delta')
    {
      hide U24, U31;
      ghost var b, start := Rest(), pos;
      ok, sub, timestamp, delta' := false, Sub(0, 0, 0, []), 0, delta;
      var has, msgType, dataSize, time, streamId := ReadHeader();
      if !has {
        return;
      }
      if delta == -1 {
        delta' := header - time;
      }
      timestamp := time + delta';
      if dataSize > 0 && !Require(dataSize) {
        return;
      }
      var data := [];
      if dataSize > 0 {
        data := ReadBytes(dataSize);
      }
      assert bytes[start + 11..start + 11 + dataSize] == b[11..11 + dataSize];
      assert dataSize == 0 ==> b[11..11 + dataSize] == [];
      assert data == b[11..11 + dataSize];
      if !Require(4) {
        return;
      }
      Read4Bytes();
      assert Rest() == b[15 + dataSize..];
      ok := true;
      sub := Sub(msgType, time, streamId, data);
    }
  }
}
