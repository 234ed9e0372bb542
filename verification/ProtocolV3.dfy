/** The framing of wire protocol version 3: encoding a message, and decoding a byte stream that
    arrives in arbitrary pieces. */
module ProtocolV3 {
  import opened Wrappers
  import opened Bytes

  const HEADER_SIZE := 16
  const MAX_PAYLOAD := 4 * 1024 * 1024
  const VERSION: Byte := 3
  // "PMT3"
  const MAGIC: seq<Byte> := [0x50, 0x4D, 0x54, 0x33]

  const RESPONSE: Byte := 1
  const ERROR: Byte := 2
  const STREAM: Byte := 4
  const MORE: Byte := 8

  datatype Message = Message(kind: U16, flags: Byte, requestId: U32, payload: seq<Byte>)

  predicate HasFlag(flags: Byte, flag: int)
    requires flag in {1, 2, 4, 8}
  {
    flags / flag % 2 == 1
  }

  /** validate_flags: known flags only, an error is a response, and more follows in a stream only. */
  predicate FlagsOk(flags: Byte) {
    && flags < 16
    && (HasFlag(flags, ERROR) ==> HasFlag(flags, RESPONSE))
    && (HasFlag(flags, MORE) ==> HasFlag(flags, STREAM))
  }

  predicate Encodable(m: Message) {
    |m.payload| <= MAX_PAYLOAD && FlagsOk(m.flags)
  }

  function Header(m: Message): (b: seq<Byte>)
    requires |m.payload| <= MAX_PAYLOAD
    ensures |b| == HEADER_SIZE
  {
    MAGIC + [VERSION, m.flags] + Put16(m.kind) + Put32(m.requestId) + Put32(|m.payload|)
  }

  function Encode(m: Message): (b: seq<Byte>)
    requires Encodable(m)
    ensures |b| == HEADER_SIZE + |m.payload|
  {
    Header(m) + m.payload
  }

  /** An error is a response, and only a stream has more to come. */
  lemma FlagsAllowed(flags: Byte)
    ensures FlagsOk(flags) <==> flags in {0, 1, 3, 4, 5, 7, 12, 13, 15}
  {}

  /** protocol_encode, which refuses what the peer would reject. */
  function ProtocolEncode(m: Message): (r: Option<seq<Byte>>)
    ensures r.Some? <==> Encodable(m)
    ensures r.Some? <==> |m.payload| <= 4194304 && m.flags in {0, 1, 3, 4, 5, 7, 12, 13, 15}
  {
    FlagsAllowed(m.flags);
    if |m.payload| > MAX_PAYLOAD then None
    else if !FlagsOk(m.flags) then None
    else Some(Encode(m))
  }

  predicate HeaderOk(b: seq<Byte>)
    requires |b| >= HEADER_SIZE
  {
    && b[..4] == MAGIC
    && b[4] == VERSION
    && FlagsOk(b[5])
    && Get32(b[12..16]) <= MAX_PAYLOAD
  }

  function FrameSize(b: seq<Byte>): nat
    requires |b| >= HEADER_SIZE
  {
    HEADER_SIZE + Get32(b[12..16])
  }

  function MessageAt(b: seq<Byte>): (m: Message)
    requires |b| >= HEADER_SIZE && HeaderOk(b) && |b| >= FrameSize(b)
    ensures Encodable(m)
  {
    Message(Get16(b[6..8]), b[5], Get32(b[8..12]), b[HEADER_SIZE..FrameSize(b)])
  }

  datatype Decoded = Decoded(messages: seq<Message>, rest: seq<Byte>, bad: bool)
  {
    function After(earlier: seq<Message>): Decoded {
      Decoded(earlier + messages, rest, bad)
    }
  }

  /** What a decoder makes of a whole byte string: the complete messages, what is left over, and
      whether the rest starts with a header that is refused. */
  function DecodeAll(b: seq<Byte>): (d: Decoded)
    ensures |d.rest| <= |b|
    ensures d.bad <==> |d.rest| >= HEADER_SIZE && !HeaderOk(d.rest)
    ensures !d.bad ==> |d.rest| < HEADER_SIZE + MAX_PAYLOAD
    decreases |b|
  {
    if |b| < HEADER_SIZE then Decoded([], b, false)
    else if !HeaderOk(b) then Decoded([], b, true)
    else if |b| < FrameSize(b) then Decoded([], b, false)
    else DecodeAll(b[FrameSize(b)..]).After([MessageAt(b)])
  }

  function EncodeAll(ms: seq<Message>): seq<Byte>
    requires forall i :: 0 <= i < |ms| ==> Encodable(ms[i])
  {
    if ms == [] then [] else Encode(ms[0]) + EncodeAll(ms[1..])
  }

  // ----- One message

  lemma HeaderFields(m: Message, b: seq<Byte>)
    requires Encodable(m) && |b| >= HEADER_SIZE && b[..HEADER_SIZE] == Header(m)
    ensures HeaderOk(b) && FrameSize(b) == HEADER_SIZE + |m.payload|
    ensures b[5] == m.flags && Get16(b[6..8]) == m.kind && Get32(b[8..12]) == m.requestId
  {
    var h := Header(m);
    assert b[..4] == h[..4] == MAGIC;
    assert b[4] == h[4] && b[5] == h[5];
    assert b[6..8] == h[6..8] == Put16(m.kind);
    assert b[8..12] == h[8..12] == Put32(m.requestId);
    assert b[12..16] == h[12..16] == Put32(|m.payload|);
    Put16Get16(m.kind);
    Put32Get32(m.requestId);
    Put32Get32(|m.payload|);
  }

  /** An encoded message in front of anything decodes to itself. */
  lemma DecodeEncoded(m: Message, rest: seq<Byte>)
    requires Encodable(m)
    ensures DecodeAll(Encode(m) + rest) == DecodeAll(rest).After([m])
  {
    var b := Encode(m) + rest;
    assert b[..HEADER_SIZE] == Header(m);
    HeaderFields(m, b);
    assert b[HEADER_SIZE..FrameSize(b)] == m.payload;
    assert b[FrameSize(b)..] == rest;
  }

  /** A message taken off a byte string encodes to the bytes it was taken from. */
  lemma EncodeDecoded(b: seq<Byte>)
    requires |b| >= HEADER_SIZE && HeaderOk(b) && |b| >= FrameSize(b)
    ensures Encode(MessageAt(b)) == b[..FrameSize(b)]
  {
    var m := MessageAt(b);
    Get16Put16(b[6..8]);
    Get32Put32(b[8..12]);
    Get32Put32(b[12..16]);
    assert Header(m) == b[..4] + [b[4], b[5]] + b[6..8] + b[8..12] + b[12..16];
    assert Header(m) == b[..HEADER_SIZE];
  }

  /** Where everything is on the wire. */
  lemma WireLayout(m: Message)
    requires Encodable(m)
    ensures var b := Encode(m);
      && b[..4] == [0x50, 0x4D, 0x54, 0x33] && b[4] == 3 && b[5] == m.flags
      && Value(b[6..8]) == m.kind && Value(b[8..12]) == m.requestId && Value(b[12..16]) == |m.payload|
      && b[16..] == m.payload
  {
    var b := Encode(m);
    assert b[..4] == MAGIC && b[6..8] == Put16(m.kind);
    assert b[8..12] == Put32(m.requestId) && b[12..16] == Put32(|m.payload|);
    WrittenValue(m.kind);
    WrittenValue(m.requestId);
    WrittenValue(|m.payload|);
  }

  /** What the decoder makes of the first bytes: which headers it refuses, how long it waits, and what
      it reads. */
  lemma FirstFrame(b: seq<Byte>)
    requires |b| >= 16
    ensures var length := Value(b[12..16]);
      var refused := b[..4] != [0x50, 0x4D, 0x54, 0x33] || b[4] != 3
        || b[5] !in {0, 1, 3, 4, 5, 7, 12, 13, 15} || length > 4194304;
      && (refused <==> DecodeAll(b) == Decoded([], b, true))
      && (!refused && |b| < 16 + length ==> DecodeAll(b) == Decoded([], b, false))
      && (!refused && |b| >= 16 + length ==>
            0 <= Value(b[6..8]) < 0x1_0000 && 0 <= Value(b[8..12]) < 0x1_0000_0000 &&
            DecodeAll(b) == DecodeAll(b[16 + length..]).After(
              [Message(Value(b[6..8]), b[5], Value(b[8..12]), b[16..16 + length])]))
  {
    FlagsAllowed(b[5]);
    Get16IsValue(b[6..8]);
    Get32IsValue(b[8..12]);
    Get32IsValue(b[12..16]);
  }

  // ----- Streams

  /** Nothing is lost or invented: the decoded messages, encoded again, and the rest are the input. */
  lemma {:induction false} Conservation(b: seq<Byte>)
    ensures forall i :: 0 <= i < |DecodeAll(b).messages| ==> Encodable(DecodeAll(b).messages[i])
    ensures EncodeAll(DecodeAll(b).messages) + DecodeAll(b).rest == b
    decreases |b|
  {
    if |b| >= HEADER_SIZE && HeaderOk(b) && |b| >= FrameSize(b) {
      Conservation(b[FrameSize(b)..]);
      FirstConserved(b, DecodeAll(b[FrameSize(b)..]));
    }
  }

  lemma FirstConserved(b: seq<Byte>, later: Decoded)
    requires |b| >= HEADER_SIZE && HeaderOk(b) && |b| >= FrameSize(b)
    requires forall i :: 0 <= i < |later.messages| ==> Encodable(later.messages[i])
    requires EncodeAll(later.messages) + later.rest == b[FrameSize(b)..]
    ensures var ms := [MessageAt(b)] + later.messages;
      && (forall i :: 0 <= i < |ms| ==> Encodable(ms[i]))
      && EncodeAll(ms) + later.rest == b
  {
    var ms, first := [MessageAt(b)] + later.messages, b[..FrameSize(b)];
    EncodeDecoded(b);
    assert ms[1..] == later.messages;
    assert EncodeAll(ms) == first + EncodeAll(later.messages);
    Associative(first, EncodeAll(later.messages), later.rest);
    assert b == first + b[FrameSize(b)..];
  }

  lemma AfterAfter(d: Decoded, first: seq<Message>, second: seq<Message>)
    ensures d.After(second).After(first) == d.After(first + second)
    ensures d.After([]) == d
  {}

  /** What follows does not change how the first message is read. */
  lemma FirstMessageStable(a: seq<Byte>, c: seq<Byte>)
    requires |a| >= HEADER_SIZE
    ensures HeaderOk(a + c) <==> HeaderOk(a)
    ensures FrameSize(a + c) == FrameSize(a)
    ensures HeaderOk(a) && |a| >= FrameSize(a) ==>
      MessageAt(a + c) == MessageAt(a) && (a + c)[FrameSize(a)..] == a[FrameSize(a)..] + c
  {}

  /** Decoding in two pieces, carrying the rest over, is decoding at once. */
  lemma {:induction false} ChunkIndependence(a: seq<Byte>, c: seq<Byte>)
    requires !DecodeAll(a).bad
    ensures DecodeAll(a + c) == DecodeAll(DecodeAll(a).rest + c).After(DecodeAll(a).messages)
    decreases |a|
  {
    AfterAfter(DecodeAll(a + c), [], []);
    if |a| >= HEADER_SIZE && HeaderOk(a) && |a| >= FrameSize(a) {
      var tail := a[FrameSize(a)..];
      FirstMessageStable(a, c);
      ChunkIndependence(tail, c);
      AfterAfter(DecodeAll(DecodeAll(tail).rest + c), [MessageAt(a)], DecodeAll(tail).messages);
    }
  }

  /** A refused header stays refused, with the same messages before it, whatever follows. */
  lemma {:induction false} BadStaysBad(a: seq<Byte>, c: seq<Byte>)
    requires DecodeAll(a).bad
    ensures DecodeAll(a + c) == Decoded(DecodeAll(a).messages, DecodeAll(a).rest + c, true)
    decreases |a|
  {
    FirstMessageStable(a, c);
    if HeaderOk(a) { BadStaysBad(a[FrameSize(a)..], c); }
  }

  lemma PrefixTail(b: seq<Byte>, first: seq<Byte>, rest: seq<Byte>)
    requires b <= first + rest && |b| >= |first|
    ensures b == first + b[|first|..] && b[|first|..] <= rest
    ensures b == first + rest ==> b[|first|..] == rest
  {}

  /** A frame that has arrived completely comes before what the rest decodes to. */
  lemma FrameArrived(ms: seq<Message>, tail: seq<Byte>)
    requires ms != [] && Encodable(ms[0]) && !DecodeAll(tail).bad && DecodeAll(tail).messages <= ms[1..]
    ensures var d := DecodeAll(Encode(ms[0]) + tail);
      && !d.bad && d.messages <= ms
      && (DecodeAll(tail) == Decoded(ms[1..], [], false) ==> d == Decoded(ms, [], false))
  {
    DecodeEncoded(ms[0], tail);
    assert ms == [ms[0]] + ms[1..];
  }

  /** A frame that has not arrived completely is left as it is. */
  lemma PartOfFrame(m: Message, b: seq<Byte>)
    requires Encodable(m) && b <= Encode(m) && |b| < |Encode(m)|
    ensures DecodeAll(b) == Decoded([], b, false)
  {
    if |b| >= HEADER_SIZE {
      assert b[..HEADER_SIZE] == Encode(m)[..HEADER_SIZE] == Header(m);
      HeaderFields(m, b);
    }
  }

  /** However far a well-formed stream has arrived, its decoding is clean and a prefix of what was sent. */
  lemma {:induction false} PrefixDecodes(ms: seq<Message>, b: seq<Byte>)
    requires forall i :: 0 <= i < |ms| ==> Encodable(ms[i])
    requires b <= EncodeAll(ms)
    ensures !DecodeAll(b).bad && DecodeAll(b).messages <= ms
    ensures b == EncodeAll(ms) ==> DecodeAll(b) == Decoded(ms, [], false)
    decreases |ms|
  {
    if ms != [] {
      var first := Encode(ms[0]);
      assert EncodeAll(ms) == first + EncodeAll(ms[1..]);
      if |b| >= |first| {
        var tail := b[|first|..];
        PrefixTail(b, first, EncodeAll(ms[1..]));
        PrefixDecodes(ms[1..], tail);
        FrameArrived(ms, tail);
      } else {
        assert b <= first;
        PartOfFrame(ms[0], b);
      }
    }
  }

  // ----- The incremental decoder

  /** Looks at the front of the buffer: a refused header, an incomplete frame, or a message. */
  method TakeFrame(buffer: seq<Byte>) returns (bad: bool, message: Option<Message>)
    requires |buffer| >= HEADER_SIZE
    ensures bad ==> DecodeAll(buffer) == Decoded([], buffer, true)
    ensures !bad && message == None ==> DecodeAll(buffer) == Decoded([], buffer, false)
    ensures !bad && message.Some? ==>
      var total := HEADER_SIZE + |message.value.payload|;
      total <= |buffer| && DecodeAll(buffer) == DecodeAll(buffer[total..]).After([message.value])
  {
    bad, message := true, None;
    if buffer[..4] != MAGIC { return; }
    if buffer[4] != VERSION { return; }
    if !FlagsOk(buffer[5]) { return; }
    var payloadSize := Get32(buffer[12..16]);
    if payloadSize > MAX_PAYLOAD { return; }
    bad := false;
    var total := HEADER_SIZE + payloadSize;
    if |buffer| < total { return; }
    message := Some(Message(Get16(buffer[6..8]), buffer[5], Get32(buffer[8..12]), buffer[HEADER_SIZE..total]));
  }

  class Decoder {
    var buffer: seq<Byte>
    var messages: seq<Message>

    constructor ()
      ensures buffer == [] && messages == []
    {
      buffer, messages := [], [];
    }

    /** Takes in a piece of the stream; `threw` tells that a header was refused. */
    method Feed(data: seq<Byte>) returns (threw: bool)
      modifies this
      ensures data == [] ==> !threw && buffer == old(buffer) && messages == old(messages)
      ensures data != [] ==>
        var d := DecodeAll(old(buffer) + data);
        threw == d.bad && buffer == d.rest && messages == old(messages) + d.messages
    {
      if data == [] { return false; }
      buffer := buffer + data;
      ghost var all := buffer;
      ghost var taken: seq<Message> := [];
      AfterAfter(DecodeAll(all), [], []);
      while |buffer| >= HEADER_SIZE
        invariant messages == old(messages) + taken
        invariant DecodeAll(all) == DecodeAll(buffer).After(taken)
        decreases |buffer|
      {
        var bad, message := TakeFrame(buffer);
        if bad { return true; }
        if message == None { return false; }
        var total := HEADER_SIZE + |message.value.payload|;
        AfterAfter(DecodeAll(buffer[total..]), taken, [message.value]);
        messages := messages + [message.value];
        taken := taken + [message.value];
        buffer := buffer[total..];
      }
      threw := false;
    }

    method Pop() returns (message: Option<Message>)
      modifies this`messages
      ensures old(messages) == [] ==> message == None && messages == []
      ensures old(messages) != [] ==> message == Some(old(messages)[0]) && messages == old(messages)[1..]
    {
      if messages == [] { return None; }
      message := Some(messages[0]);
      messages := messages[1..];
    }
  }
}
