/** session_t: a bounded send queue that is written out in whatever portions the socket takes, and a
    receiver that feeds whatever arrives to the decoder. */
module Session {
  import opened Wrappers
  import opened Bytes
  import opened ProtocolV3

  const QUEUE_LIMIT := 1024 * 1024

  function Flatten(frames: seq<seq<Byte>>): seq<Byte> {
    if frames == [] then [] else frames[0] + Flatten(frames[1..])
  }

  lemma {:induction false} FlattenAppend(frames: seq<seq<Byte>>, last: seq<Byte>)
    ensures Flatten(frames + [last]) == Flatten(frames) + last
  {
    if frames == [] {
      assert frames + [last] == [last];
      assert [last][1..] == [];
    } else {
      FlattenAppend(frames[1..], last);
      assert (frames + [last])[1..] == frames[1..] + [last];
    }
  }

  ghost predicate AllEncodable(ms: seq<Message>) {
    forall i :: 0 <= i < |ms| ==> Encodable(ms[i])
  }

  lemma {:induction false} EncodeAllAppend(ms: seq<Message>, m: Message)
    requires AllEncodable(ms) && Encodable(m)
    ensures EncodeAll(ms + [m]) == EncodeAll(ms) + Encode(m)
  {
    var all := ms + [m];
    if ms == [] {
      assert EncodeAll(all) == Encode(all[0]) + EncodeAll(all[1..]);
    } else {
      var first, rest := Encode(ms[0]), EncodeAll(ms[1..]);
      EncodeAllAppend(ms[1..], m);
      assert all[1..] == ms[1..] + [m] && all[0] == ms[0];
      assert EncodeAll(all) == first + (rest + Encode(m));
      assert first + (rest + Encode(m)) == first + rest + Encode(m);
    }
  }

  datatype SendResult = Threw | Refused | Sent

  /** What a read from the socket may find. */
  datatype Arrival = Data(bytes: seq<Byte>) | NothingYet | EndOfFile | ReadError

  function BytesOf(arrivals: seq<Arrival>): seq<Byte> {
    if arrivals == [] then []
    else
      var last := arrivals[|arrivals| - 1];
      BytesOf(arrivals[..|arrivals| - 1]) + if last.Data? then last.bytes else []
  }

  class Session {
    var open: bool
    const sendBufferSize: nat
    // the socket takes everything it is offered
    const willing: bool
    // how many more times it will take nothing although it is open
    var patience: nat
    // sending
    var sendBuf: seq<seq<Byte>>
    var queuedBytes: nat
    var nextRequestId: U32
    // receiving
    const decoder: Decoder
    var recvMessages: seq<Message>
    var currentType: U16
    var currentRequestId: U32

    // the socket's side: every byte it has taken, and every byte it has handed over
    var wire: seq<Byte>
    var received: seq<Byte>
    // every message accepted for sending, put into the receive queue, and read by the application
    ghost var accepted: seq<Message>
    ghost var delivered: seq<Message>
    ghost var taken: seq<Message>

    /** The socket has taken, and the queue holds, exactly the encodings of what was accepted. */
    ghost predicate SenderValid()
      reads this
    {
      && AllEncodable(accepted)
      && wire + Flatten(sendBuf) == EncodeAll(accepted)
      && queuedBytes == |Flatten(sendBuf)| <= QUEUE_LIMIT
    }

    /** What was delivered is read in order, and it is what the received bytes decode to; a bad header
        closes the session. */
    ghost predicate ReceiverValid()
      reads this, decoder
    {
      taken + recvMessages == delivered && if DecodeAll(received).bad then !open else InStep()
    }

    ghost predicate InStep()
      reads this, decoder
    {
      decoder.messages == [] && DecodeAll(received) == Decoded(delivered, decoder.buffer, false)
    }

    constructor (sendBufferSize: nat, willing: bool, patience: nat)
      ensures this.sendBufferSize == sendBufferSize && this.willing == willing
      ensures SenderValid() && ReceiverValid() && fresh(decoder) && open
      ensures accepted == [] && wire == [] && received == [] && delivered == [] && taken == []
    {
      this.sendBufferSize, this.willing, this.patience := sendBufferSize, willing, patience;
      open, sendBuf, queuedBytes, nextRequestId := true, [], 0, 1;
      decoder := new Decoder();
      recvMessages, currentType, currentRequestId := [], 0, 0;
      accepted, wire, received, delivered, taken := [], [], [], [], [];
    }

    /** The operating system takes some of the bytes, none, or reports a broken pipe. */
    method SocketSend(bytes: seq<Byte>) returns (count: nat, broken: bool)
      requires bytes != []
      modifies this`patience
      ensures count <= |bytes| && (broken ==> count == 0) && (!open ==> count == 0 && !broken)
      ensures patience <= old(patience)
      ensures open && count == 0 && !broken ==> patience < old(patience)
      ensures open && willing ==> count == |bytes|
    {
      if !open { return 0, false; }
      if willing { return |bytes|, false; }
      count, broken := *, *;
      if count > |bytes| { count := |bytes|; }
      if broken {
        count := 0;
      } else if count == 0 {
        if patience > 0 { patience := patience - 1; } else { count := 1; }
      }
    }

    /** write: one pass over the queue, which ends when the queue is empty, the socket takes no
        more, or enough has been sent. */
    method Write() returns (total: nat)
      requires SenderValid()
      modifies this`open, this`sendBuf, this`queuedBytes, this`wire, this`patience
      ensures SenderValid() && old(wire) <= wire && total == |wire| - |old(wire)|
      ensures queuedBytes == old(queuedBytes) - total && patience <= old(patience)
      ensures (open ==> old(open)) && (!old(open) ==> wire == old(wire))
      ensures old(open) && willing ==> open && (sendBuf == [] || total >= sendBufferSize)
      ensures open && sendBufferSize > 0 ==>
        sendBuf == [] || queuedBytes < old(queuedBytes) || patience < old(patience)
    {
      total := 0;
      while sendBuf != [] && total < sendBufferSize
        invariant SenderValid() && old(wire) <= wire && open == old(open) && patience <= old(patience)
        invariant total == |wire| - |old(wire)| == old(queuedBytes) - queuedBytes
        invariant !open ==> total == 0
        decreases |sendBuf|
      {
        var frame := sendBuf[0];
        if frame != [] {
          var count, broken := SocketSend(frame);
          if count == 0 {
            if broken { open := false; }
            break;
          }
          total := total + count;
          TakeBytes(wire, sendBuf, count);
          wire := wire + frame[..count];
          queuedBytes := queuedBytes - count;
          if count < |frame| {
            sendBuf := [frame[count..]] + sendBuf[1..];
            break;
          }
          sendBuf := sendBuf[1..];
        } else {
          assert [] + Flatten(sendBuf[1..]) == Flatten(sendBuf[1..]);
          sendBuf := sendBuf[1..];
        }
      }
    }

    /** Queues an encoded message, unless that would exceed the limit, and tries to send. */
    method Enqueue(message: Message, block: bool) returns (result: SendResult)
      requires SenderValid()
      modifies this`open, this`sendBuf, this`queuedBytes, this`wire, this`patience, this`accepted
      ensures SenderValid() && old(wire) <= wire
      ensures open ==> old(open)
      ensures result == Threw <==> !Encodable(message)
      ensures result == Sent ==> accepted == old(accepted) + [message]
      ensures result != Sent ==> accepted == old(accepted) && wire == old(wire)
      ensures Encodable(message) ==>
        (result == Sent <==> old(open) && old(queuedBytes) + |Encode(message)| <= 1048576)
      ensures result == Refused ==> !open
      ensures result == Sent && block && sendBufferSize > 0 ==> sendBuf == [] || !open
    {
      var encoded := ProtocolEncode(message);
      if encoded == None { return Threw; }
      var frame := encoded.value;
      if !open { return Refused; }
      if queuedBytes + |frame| > QUEUE_LIMIT {
        open := false;
        return Refused;
      }
      Queue(frame, message);
      var _ := Write();
      if block { Drain(); }
      result := Sent;
    }

    method Queue(frame: seq<Byte>, ghost message: Message)
      requires SenderValid() && Encodable(message) && frame == Encode(message)
      requires queuedBytes + |frame| <= QUEUE_LIMIT
      modifies this`sendBuf, this`queuedBytes, this`accepted
      ensures SenderValid() && accepted == old(accepted) + [message]
      ensures sendBuf == old(sendBuf) + [frame]
    {
      QueuedLast(wire, sendBuf, accepted, frame, message);
      queuedBytes := queuedBytes + |frame|;
      sendBuf := sendBuf + [frame];
      accepted := accepted + [message];
    }

    /** A blocking call goes on until the queue is empty or the session is closed.  (If the size of the
        socket's buffer is unknown, taken as 0, no pass sends anything and it would not return.) */
    method Drain()
      requires SenderValid()
      modifies this`open, this`sendBuf, this`queuedBytes, this`wire, this`patience
      ensures SenderValid() && old(wire) <= wire && (open ==> old(open))
      ensures sendBufferSize > 0 ==> sendBuf == [] || !open
    {
      while sendBufferSize > 0 && sendBuf != [] && open
        invariant SenderValid() && old(wire) <= wire && (open ==> old(open))
        decreases queuedBytes, patience
      {
        var _ := Write();
        if !open || sendBuf == [] { break; }
      }
    }

    /** write_frame: a response to the message read last; a non-zero status word makes it an error. */
    method WriteFrame(payload: seq<Byte>, block: bool) returns (result: SendResult)
      requires SenderValid()
      modifies this`open, this`sendBuf, this`queuedBytes, this`wire, this`patience, this`accepted
      ensures SenderValid() && old(wire) <= wire
      ensures result == Threw <==> |payload| > MAX_PAYLOAD
      ensures result == Sent ==>
        var failed := |payload| >= 4 && payload[..4] != [0, 0, 0, 0];
        accepted == old(accepted) + [Message(currentType, if failed then 3 else 1, currentRequestId, payload)]
      ensures result == Sent <==>
        |payload| <= MAX_PAYLOAD && old(open) && old(queuedBytes) + HEADER_SIZE + |payload| <= 1048576
      ensures result == Sent && block && sendBufferSize > 0 ==> sendBuf == [] || !open
      ensures result != Sent ==> accepted == old(accepted) && wire == old(wire)
    {
      var flags: Byte := RESPONSE;
      if |payload| >= 4 {
        var status := Get32(payload[..4]);
        StatusIsZero(payload[..4]);
        if status != 0 { flags := RESPONSE + ERROR; }
      }
      result := Enqueue(Message(currentType, flags, currentRequestId, payload), block);
    }

    /** write_command_frame: the first byte is the message type; id 0 stands for the next free one. */
    method WriteCommandFrame(frame: seq<Byte>, requestId: U32, flags: Byte, block: bool) returns (result: SendResult)
      requires SenderValid()
      modifies this`open, this`sendBuf, this`queuedBytes, this`wire, this`patience, this`accepted, this`nextRequestId
      ensures SenderValid() && old(wire) <= wire
      ensures frame == [] || !old(open) ==> result == Refused
      ensures result == Threw <==> frame != [] && old(open) && !(|frame| - 1 <= MAX_PAYLOAD && FlagsOk(flags))
      ensures result == Sent <==>
        && frame != [] && old(open) && FlagsOk(flags)
        && old(queuedBytes) + HEADER_SIZE + |frame| - 1 <= 1048576
      ensures nextRequestId ==
        if frame == [] || !old(open) || requestId != 0 then old(nextRequestId)
        else (old(nextRequestId) + 1) % 0x1_0000_0000
      ensures result == Sent ==>
        && frame != []
        && accepted == old(accepted) +
             [Message(frame[0], flags, if requestId == 0 then old(nextRequestId) else requestId, frame[1..])]
      ensures result == Sent && block && sendBufferSize > 0 ==> sendBuf == [] || !open
      ensures result != Sent ==> accepted == old(accepted) && wire == old(wire)
    {
      if frame == [] || !open { return Refused; }
      var id := requestId;
      if id == 0 {
        id := nextRequestId;
        nextRequestId := (nextRequestId + 1) % 0x1_0000_0000;
      }
      result := Enqueue(Message(frame[0], flags, id, frame[1..]), block);
    }

    /** write_stream_frame: a piece of a streamed response. */
    method WriteStreamFrame(payload: seq<Byte>, block: bool, more: bool) returns (result: SendResult)
      requires SenderValid()
      modifies this`open, this`sendBuf, this`queuedBytes, this`wire, this`patience, this`accepted
      ensures SenderValid() && old(wire) <= wire
      ensures result == Sent ==>
        accepted == old(accepted) + [Message(currentType, if more then 13 else 5, currentRequestId, payload)]
      ensures result == Sent <==>
        |payload| <= MAX_PAYLOAD && old(open) && old(queuedBytes) + HEADER_SIZE + |payload| <= 1048576
      ensures result == Threw <==> old(open) && |payload| > MAX_PAYLOAD
      ensures result == Sent && block && sendBufferSize > 0 ==> sendBuf == [] || !open
      ensures result != Sent ==> accepted == old(accepted) && wire == old(wire)
    {
      if !open { return Refused; }
      var flags: Byte := RESPONSE + STREAM + if more then MORE else 0;
      result := Enqueue(Message(currentType, flags, currentRequestId, payload), block);
    }

    method TakeDecoded()
      modifies this`recvMessages, decoder`messages
      ensures decoder.messages == [] && recvMessages == old(recvMessages) + old(decoder.messages)
    {
      ghost var decoded := decoder.messages;
      while decoder.messages != []
        invariant |decoder.messages| <= |decoded|
        invariant decoder.messages == decoded[|decoded| - |decoder.messages|..]
        invariant recvMessages == old(recvMessages) + decoded[..|decoded| - |decoder.messages|]
        decreases |decoder.messages|
      {
        var message := decoder.Pop();
        recvMessages := recvMessages + [message.value];
      }
    }

    /** read: what arrives goes through the decoder into the receive queue.  On a refused header the
        session is closed and nothing of this chunk is delivered. */
    method Read(arrival: Arrival) returns (ok: bool)
      requires ReceiverValid()
      modifies this`open, this`recvMessages, this`received, this`delivered, decoder
      ensures ReceiverValid()
      ensures received == if old(open) && arrival.Data? then old(received) + arrival.bytes else old(received)
      ensures open <==> old(open) && !ClosedBy(arrival, received)
      ensures ok <==> old(open) && arrival != ReadError && (open || arrival == EndOfFile)
      ensures old(delivered) <= delivered
      ensures !ok || !arrival.Data? ==> delivered == old(delivered)
    {
      if !open { return false; }
      match arrival
      case ReadError => ok := false;
      case NothingYet => ok := true;
      case EndOfFile => open, ok := false, true;
      case Data(bytes) =>
        ok := TakeIn(bytes);
        DeliveredGrows(taken, old(recvMessages), old(delivered), delivered[|old(delivered)|..]);
    }

    method TakeIn(bytes: seq<Byte>) returns (ok: bool)
      requires InStep() && open
      modifies this`open, this`recvMessages, this`received, this`delivered, decoder
      ensures received == old(received) + bytes
      ensures ok == open == !DecodeAll(received).bad
      ensures ok ==> InStep()
      ensures old(delivered) <= delivered && recvMessages == old(recvMessages) + delivered[|old(delivered)|..]
      ensures !ok ==> delivered == old(delivered)
    {
      ghost var d := DecodeAll(decoder.buffer + bytes);
      ReadContinues(received, bytes, delivered, decoder.buffer, d);
      received := received + bytes;
      if bytes == [] { return true; }
      var threw := decoder.Feed(bytes);
      if threw {
        open := false;
        return false;
      }
      ghost var decoded := decoder.messages;
      TakeDecoded();
      delivered := delivered + decoded;
      assert decoded == d.messages && decoder.buffer == d.rest;
      ok := true;
    }

    /** read_message.  `arrivals` is what the socket will hand over while the call waits; a blocking call
        that has used them all without getting a message is still `waiting`. */
    method ReadMessage(block: bool, arrivals: seq<Arrival>)
      returns (message: Option<Message>, used: nat, waiting: bool)
      requires ReceiverValid()
      modifies this`open, this`recvMessages, this`received, this`delivered, this`taken, decoder
      modifies this`currentType, this`currentRequestId
      ensures ReceiverValid() && old(delivered) <= delivered
      ensures used <= |arrivals| && received == old(received) + BytesOf(arrivals[..used])
      ensures old(recvMessages) != [] ==> used == 0
      ensures !block ==> used <= 1
      ensures (open ==> old(open)) && (!old(open) ==> used == 0)
      ensures old(open) && !open ==> used > 0 && ClosedBy(arrivals[used - 1], received)
      ensures message == None ==> taken == old(taken) && recvMessages == []
      ensures waiting <==> message == None && block && open
      ensures waiting ==> used == |arrivals|
      ensures message.Some? ==>
        && taken == old(taken) + [message.value]
        && currentType == message.value.kind && currentRequestId == message.value.requestId
    {
      used := AwaitMessage(block, arrivals);
      waiting := recvMessages == [] && block && open;
      if recvMessages == [] { return None, used, waiting; }
      message := Some(recvMessages[0]);
      FirstTaken(taken, recvMessages);
      taken := taken + [recvMessages[0]];
      recvMessages := recvMessages[1..];
      currentType, currentRequestId := message.value.kind, message.value.requestId;
    }

    method ReadNext(arrivals: seq<Arrival>, n: nat, ghost before: seq<Byte>)
      requires ReceiverValid() && open && n < |arrivals| && received == before + BytesOf(arrivals[..n])
      modifies this`open, this`recvMessages, this`received, this`delivered, decoder
      ensures ReceiverValid() && old(delivered) <= delivered
      ensures received == before + BytesOf(arrivals[..n + 1])
      ensures !open ==> ClosedBy(arrivals[n], received)
    {
      MoreBytes(before, arrivals, n);
      var _ := Read(arrivals[n]);
    }

    /** Reads on as long as there is no message. */
    method AwaitMessage(block: bool, arrivals: seq<Arrival>) returns (used: nat)
      requires ReceiverValid()
      modifies this`open, this`recvMessages, this`received, this`delivered, decoder
      ensures ReceiverValid() && old(delivered) <= delivered
      ensures used <= |arrivals| && received == old(received) + BytesOf(arrivals[..used])
      ensures old(recvMessages) != [] ==> used == 0 && recvMessages == old(recvMessages)
      ensures !block ==> used <= 1
      ensures (open ==> old(open)) && (!old(open) ==> used == 0)
      ensures old(open) && !open ==> used > 0 && ClosedBy(arrivals[used - 1], received)
      ensures recvMessages == [] && block && open ==> used == |arrivals|
    {
      used := 0;
      assert arrivals[..0] == [] && received + [] == received;
      while recvMessages == [] && open && used < |arrivals|
        invariant ReceiverValid() && old(delivered) <= delivered && used <= |arrivals|
        invariant received == old(received) + BytesOf(arrivals[..used])
        invariant old(recvMessages) != [] ==> used == 0 && recvMessages == old(recvMessages)
        invariant !block ==> used == 0
        invariant (open ==> old(open)) && (!old(open) ==> used == 0)
        invariant old(open) && !open ==> used > 0 && ClosedBy(arrivals[used - 1], received)
        decreases |arrivals| - used
      {
        ReadNext(arrivals, used, old(received));
        used := used + 1;
        if !block { break; }
      }
    }
  }

  /** What makes a receiving session close. */
  ghost predicate ClosedBy(arrival: Arrival, received: seq<Byte>) {
    arrival == EndOfFile || (arrival.Data? && DecodeAll(received).bad)
  }

  lemma MoreBytes(before: seq<Byte>, arrivals: seq<Arrival>, n: nat)
    requires n < |arrivals|
    ensures before + BytesOf(arrivals[..n + 1]) ==
      before + BytesOf(arrivals[..n]) + if arrivals[n].Data? then arrivals[n].bytes else []
    ensures !arrivals[n].Data? ==> BytesOf(arrivals[..n + 1]) == BytesOf(arrivals[..n])
  {
    assert arrivals[..n + 1][..n] == arrivals[..n];
  }

  lemma FirstTaken(taken: seq<Message>, waiting: seq<Message>)
    requires waiting != []
    ensures (taken + [waiting[0]]) + waiting[1..] == taken + waiting
  {}

  lemma DeliveredGrows(taken: seq<Message>, waiting: seq<Message>, delivered: seq<Message>, more: seq<Message>)
    requires taken + waiting == delivered
    ensures taken + (waiting + more) == delivered + more
  {}

  /** Decoding the carried-over rest with the new chunk continues the decoding of the whole. */
  lemma ReadContinues(received: seq<Byte>, chunk: seq<Byte>, delivered: seq<Message>, rest: seq<Byte>, d: Decoded)
    requires DecodeAll(received) == Decoded(delivered, rest, false) && d == DecodeAll(rest + chunk)
    ensures DecodeAll(received + chunk) == Decoded(delivered + d.messages, d.rest, d.bad)
    ensures chunk == [] ==> received + chunk == received
  {
    ChunkIndependence(received, chunk);
  }

  lemma StatusIsZero(b: seq<Byte>)
    requires |b| == 4
    ensures Get32(b) == 0 <==> b == [0, 0, 0, 0]
  {}

  /** A frame queued last is encoded last. */
  lemma QueuedLast(wire: seq<Byte>, frames: seq<seq<Byte>>, accepted: seq<Message>, frame: seq<Byte>, message: Message)
    requires AllEncodable(accepted) && Encodable(message) && frame == Encode(message)
    requires wire + Flatten(frames) == EncodeAll(accepted)
    ensures AllEncodable(accepted + [message])
    ensures wire + Flatten(frames + [frame]) == EncodeAll(accepted + [message])
    ensures |Flatten(frames + [frame])| == |Flatten(frames)| + |frame|
  {
    var queued := Flatten(frames);
    FlattenAppend(frames, frame);
    EncodeAllAppend(accepted, message);
    Associative(wire, queued, frame);
  }

  /** Bytes that leave the first frame move from the queue to the wire. */
  lemma TakeBytes(wire: seq<Byte>, frames: seq<seq<Byte>>, n: nat)
    requires frames != [] && n <= |frames[0]|
    ensures Flatten(frames) == frames[0][..n] + Flatten([frames[0][n..]] + frames[1..])
    ensures wire + Flatten(frames) == (wire + frames[0][..n]) + Flatten([frames[0][n..]] + frames[1..])
    ensures n == |frames[0]| ==> Flatten([frames[0][n..]] + frames[1..]) == Flatten(frames[1..])
  {
    var f := frames[0];
    assert f == f[..n] + f[n..];
    assert ([f[n..]] + frames[1..])[1..] == frames[1..];
    assert f[..n] + f[n..] + Flatten(frames[1..]) == f[..n] + (f[n..] + Flatten(frames[1..]));
    var rest := Flatten([f[n..]] + frames[1..]);
    assert wire + (f[..n] + rest) == (wire + f[..n]) + rest;
  }

  // ----- Two sessions joined by a stream

  /** What has arrived of the wire decodes to a prefix of what was accepted. */
  lemma Arrives(accepted: seq<Message>, wire: seq<Byte>, queued: seq<Byte>, received: seq<Byte>)
    requires AllEncodable(accepted) && wire + queued == EncodeAll(accepted) && received <= wire
    ensures !DecodeAll(received).bad && DecodeAll(received).messages <= accepted
    ensures received == wire && queued == [] ==> DecodeAll(received).messages == accepted
  {
    assert received <= wire + queued;
    PrefixDecodes(accepted, received);
    if queued == [] { assert wire + queued == wire; }
  }

  datatype SendAction =
    | Command(frame: seq<Byte>, requestId: U32, flags: Byte)
    | Respond(payload: seq<Byte>)
    | Stream(payload: seq<Byte>, more: bool)
    | Flush

  datatype ReceiveAction =
    | Deliver(n: nat)     // some bytes arrive
    | Await(n: nat)       // the application waits for a message while they arrive
    | Idle                // nothing arrives
    | Hangup              // end of file
    | Fault               // the read fails

  datatype Action = AtSender(send: SendAction) | AtReceiver(receive: ReceiveAction)

  /** Up to `n` bytes that the sender's socket has taken and the receiver's has not handed over yet. */
  function InFlight(wire: seq<Byte>, received: seq<Byte>, n: nat): (chunk: seq<Byte>)
    requires received <= wire
    ensures received + chunk <= wire
  {
    if |received| + n < |wire| then wire[|received|..|received| + n] else wire[|received|..]
  }

  /** For every sequence of sends, partial writes and receive chunks: what the peer's application has
      read is a prefix of what was delivered to it, which is a prefix of what was accepted for sending.
      The peer never sees a bad header, and its session is closed by the end of file only. */
  method Exchange(sender: Session, receiver: Session, script: seq<Action>, block: bool)
    requires sender != receiver && sender.decoder != receiver.decoder
    requires sender.SenderValid() && receiver.ReceiverValid() && receiver.received <= sender.wire
    modifies sender, receiver, receiver.decoder
    ensures sender.SenderValid() && receiver.ReceiverValid()
    ensures old(sender.accepted) <= sender.accepted && old(receiver.delivered) <= receiver.delivered
    ensures receiver.received <= sender.wire && !DecodeAll(receiver.received).bad
    ensures sender.queuedBytes == |Flatten(sender.sendBuf)| <= 1048576
    ensures receiver.open <==> old(receiver.open) && AtReceiver(Hangup) !in script
    ensures receiver.taken <= receiver.delivered <= sender.accepted
    ensures receiver.received == sender.wire && sender.sendBuf == [] ==> receiver.delivered == sender.accepted
  {
    for i := 0 to |script|
      invariant sender.SenderValid() && receiver.ReceiverValid()
      invariant old(sender.accepted) <= sender.accepted && old(receiver.delivered) <= receiver.delivered
      invariant receiver.received <= sender.wire
      invariant receiver.open <==> old(receiver.open) && AtReceiver(Hangup) !in script[..i]
    {
      assert script[..i + 1] == script[..i] + [script[i]];
      match script[i]
      case AtSender(action) => Send(sender, action, block);
      case AtReceiver(action) => Receive(sender, receiver, action);
    }
    assert script[..|script|] == script;
    Arrives(sender.accepted, sender.wire, Flatten(sender.sendBuf), receiver.received);
  }

  method Send(sender: Session, action: SendAction, block: bool)
    requires sender.SenderValid()
    modifies sender`open, sender`sendBuf, sender`queuedBytes, sender`wire, sender`patience, sender`accepted
    modifies sender`nextRequestId
    ensures sender.SenderValid() && old(sender.wire) <= sender.wire && old(sender.accepted) <= sender.accepted
  {
    match action
    case Command(frame, requestId, flags) =>
      var _ := sender.WriteCommandFrame(frame, requestId, flags, block);
    case Respond(payload) =>
      var _ := sender.WriteFrame(payload, block);
    case Stream(payload, more) =>
      var _ := sender.WriteStreamFrame(payload, block, more);
    case Flush =>
      var _ := sender.Write();
  }

  method Receive(sender: Session, receiver: Session, action: ReceiveAction)
    requires sender != receiver && sender.decoder != receiver.decoder
    requires sender.SenderValid() && receiver.ReceiverValid() && receiver.received <= sender.wire
    modifies receiver, receiver.decoder
    ensures receiver.ReceiverValid() && receiver.received <= sender.wire
    ensures old(receiver.delivered) <= receiver.delivered
    ensures receiver.open <==> old(receiver.open) && action != Hangup
  {
    match action
    case Deliver(n) =>
      var chunk := InFlight(sender.wire, receiver.received, n);
      Arrives(sender.accepted, sender.wire, Flatten(sender.sendBuf), receiver.received + chunk);
      var _ := receiver.Read(Data(chunk));
    case Await(n) => AwaitChunk(sender, receiver, n);
    case Idle => var _ := receiver.Read(NothingYet);
    case Hangup => var _ := receiver.Read(EndOfFile);
    case Fault => var _ := receiver.Read(ReadError);
  }

  /** A single good chunk closes no session. */
  lemma OneArrival(before: seq<Byte>, chunk: seq<Byte>, used: nat)
    requires used <= 1 && !DecodeAll(before + chunk).bad
    ensures before + BytesOf([Data(chunk)][..used]) == if used == 0 then before else before + chunk
    ensures used > 0 ==> !ClosedBy([Data(chunk)][used - 1], before + BytesOf([Data(chunk)][..used]))
  {
    MoreBytes(before, [Data(chunk)], 0);
  }

  method AwaitChunk(sender: Session, receiver: Session, n: nat)
    requires sender != receiver && sender.decoder != receiver.decoder
    requires sender.SenderValid() && receiver.ReceiverValid() && receiver.received <= sender.wire
    modifies receiver, receiver.decoder
    ensures receiver.ReceiverValid() && receiver.received <= sender.wire
    ensures old(receiver.delivered) <= receiver.delivered
    ensures receiver.open <==> old(receiver.open)
  {
    var chunk := InFlight(sender.wire, receiver.received, n);
    Arrives(sender.accepted, sender.wire, Flatten(sender.sendBuf), receiver.received + chunk);
    ghost var before := receiver.received;
    var _, used, _ := receiver.ReadMessage(true, [Data(chunk)]);
    OneArrival(before, chunk, used);
  }
}
