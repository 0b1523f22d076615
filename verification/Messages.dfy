/**
 The media messages the server moves around, and the byte-level tests on their payload.

 A message object owns its timestamp and shares its payload: `block` names the shared payload
 block, so a copy of a message carries the same block and its own timestamp.
 */
module Messages {

  newtype byte = x: int | 0 <= x < 256

  datatype Option<+T> = None | Some(value: T)

  datatype Kind = Audio | Video | Data

  datatype Message = Message(kind: Kind, block: nat, payload: seq<byte>, timestamp: int)
  {
    predicate IsAv() {
      kind.Audio? || kind.Video?
    }

    /** The message without the one field that its holders rewrite. */
    function Body(): Message {
      this.(timestamp := 0)
    }

    predicate IsVideoHeader() {
      kind.Video? && VideoSh(payload)
    }

    predicate IsAudioHeader() {
      kind.Audio? && AudioSh(payload)
    }

    predicate IsHeader() {
      IsVideoHeader() || IsAudioHeader()
    }
  }

  const CODEC_AVC: byte := 7
  const CODEC_AAC: byte := 10
  const CODEC_MP3: byte := 2
  const FRAME_KEY: byte := 1
  const SEQUENCE_HEADER: byte := 0

  predicate Keyframe(data: seq<byte>) {
    |data| >= 1 && data[0] / 16 == FRAME_KEY
  }

  predicate H264(data: seq<byte>) {
    |data| >= 1 && data[0] % 16 == CODEC_AVC
  }

  predicate VideoSh(data: seq<byte>) {
    H264(data) && |data| >= 2 && data[0] / 16 == FRAME_KEY && data[1] == SEQUENCE_HEADER
  }

  predicate Acceptable(data: seq<byte>) {
    |data| >= 1 && 1 <= data[0] / 16 <= 5 && 2 <= data[0] % 16 <= 7
  }

  predicate AudioSh(data: seq<byte>) {
    |data| >= 2 && data[0] / 16 == CODEC_AAC && data[1] == SEQUENCE_HEADER
  }

  /** An AAC message that ends before its packet type. */
  predicate AudioRejected(data: seq<byte>) {
    |data| == 1 && data[0] / 16 == CODEC_AAC
  }

  /** The tests, byte by byte. */
  lemma VideoByBytes(data: seq<byte>)
    ensures Keyframe(data) <==> data != [] && 0x10 <= data[0] <= 0x1F
    ensures H264(data) <==>
      && data != []
      && data[0] in {0x07, 0x17, 0x27, 0x37, 0x47, 0x57, 0x67, 0x77, 0x87, 0x97, 0xA7, 0xB7, 0xC7, 0xD7, 0xE7, 0xF7}
    ensures VideoSh(data) <==> |data| >= 2 && data[0] == 0x17 && data[1] == 0x00
    ensures Acceptable(data) <==>
      && data != []
      && (|| 0x12 <= data[0] <= 0x17 || 0x22 <= data[0] <= 0x27 || 0x32 <= data[0] <= 0x37
          || 0x42 <= data[0] <= 0x47 || 0x52 <= data[0] <= 0x57)
  {
  }

  lemma AudioByBytes(data: seq<byte>)
    ensures AudioSh(data) <==> |data| >= 2 && 0xA0 <= data[0] <= 0xAF && data[1] == 0x00
    ensures AudioRejected(data) <==> |data| == 1 && 0xA0 <= data[0] <= 0xAF
  {
  }

  /** The messages of a sequence that satisfy a test, in order. */
  function Filter(p: Message -> bool, s: seq<Message>): (r: seq<Message>)
  {
    if s == [] then []
    else Filter(p, s[..|s| - 1]) + if p(s[|s| - 1]) then [s[|s| - 1]] else []
  }

  lemma {:induction false} FilterConcat(p: Message -> bool, a: seq<Message>, b: seq<Message>)
    ensures Filter(p, a + b) == Filter(p, a) + Filter(p, b)
  {
    if b == [] {
      assert a + b == a;
    } else {
      var last := b[|b| - 1];
      assert (a + b)[..|a + b| - 1] == a + b[..|b| - 1];
      FilterConcat(p, a, b[..|b| - 1]);
    }
  }

  /** `small` is a contiguous run of messages ending where `big` ends. */
  predicate IsSuffix(small: seq<Message>, big: seq<Message>) {
    |small| <= |big| && big[|big| - |small|..] == small
  }
}
