/** Streaming log text: str_to_frames cuts a message into frames, and the client's loop puts the
    pieces together again. */
module LogFrames {
  import opened Wrappers
  import opened Bytes
  import opened FieldCodec

  // half of the 4 MiB frame limit
  const PIECE := 2 * 1024 * 1024
  // the type of a frame that is continued by the next one
  const CONTINUED := 2
  // the type of the last message of a stream
  const END := 0

  datatype Message = Message(kind: int, text: Text)

  /** A frame on the wire: its type and its text. */
  function FrameBytes(m: Message): seq<Byte>
    requires IsInt32(m.kind) && FitsString(m.text)
  {
    PutInt(m.kind) + PutString(m.text)
  }

  function Pieces(text: Text): seq<Text> {
    if |text| <= PIECE then [text] else [text[..PIECE]] + Pieces(text[PIECE..])
  }

  /** All pieces but the last are marked as continued. */
  function Frames(m: Message): seq<Message>
    decreases |m.text|
  {
    if |m.text| <= PIECE then [m]
    else [Message(CONTINUED, m.text[..PIECE])] + Frames(Message(m.kind, m.text[PIECE..]))
  }

  /** What the client prints, given what it has collected so far. */
  function Shown(frames: seq<Message>, collected: Text): seq<Text> {
    if frames == [] then []
    else
      var text := collected + frames[0].text;
      if frames[0].kind == CONTINUED then Shown(frames[1..], text)
      else if frames[0].kind == END then [text]
      else [text] + Shown(frames[1..], [])
  }

  function AllFrames(ms: seq<Message>): seq<Message> {
    if ms == [] then [] else Frames(ms[0]) + AllFrames(ms[1..])
  }

  /** The texts up to and including the end of the stream. */
  function Texts(ms: seq<Message>): seq<Text> {
    if ms == [] then []
    else if ms[0].kind == 0 then [ms[0].text]
    else [ms[0].text] + Texts(ms[1..])
  }

  /** Cut and collected again, a message is shown whole; one of the continued type is kept for the next. */
  lemma {:induction false} FramesShown(m: Message, rest: seq<Message>, collected: Text)
    ensures Shown(Frames(m) + rest, collected) ==
      if m.kind == CONTINUED then Shown(rest, collected + m.text)
      else if m.kind == END then [collected + m.text]
      else [collected + m.text] + Shown(rest, [])
    decreases |m.text|
  {
    var frames := Frames(m) + rest;
    if |m.text| <= PIECE {
      assert frames[1..] == rest;
    } else {
      var tail := Message(m.kind, m.text[PIECE..]);
      assert frames[1..] == Frames(tail) + rest;
      FramesShown(tail, rest, collected + m.text[..PIECE]);
      assert collected + m.text[..PIECE] + m.text[PIECE..] == collected + m.text;
    }
  }

  /** Cutting cannot be seen: the frames show what the uncut messages would. */
  lemma {:induction false} CuttingUnseen(ms: seq<Message>, collected: Text)
    ensures Shown(AllFrames(ms), collected) == Shown(ms, collected)
  {
    if ms != [] {
      FramesShown(ms[0], AllFrames(ms[1..]), collected);
      CuttingUnseen(ms[1..], if ms[0].kind == CONTINUED then collected + ms[0].text else []);
    }
  }

  /** No message up to the end of the stream has the continued type itself. */
  predicate NoneContinued(ms: seq<Message>) {
    ms == [] || (ms[0].kind != 2 && (ms[0].kind == 0 || NoneContinued(ms[1..])))
  }

  /** At most one text is shown per message, and fewer as soon as one of them is continued. */
  lemma {:induction false} ShownCount(ms: seq<Message>, collected: Text)
    ensures |Shown(ms, collected)| <= |Texts(ms)|
    ensures |Shown(ms, collected)| == |Texts(ms)| ==> NoneContinued(ms)
  {
    if ms != [] {
      ShownCount(ms[1..], if ms[0].kind == CONTINUED then collected + ms[0].text else []);
    }
  }

  lemma {:induction false} ShownWhole(ms: seq<Message>)
    requires NoneContinued(ms)
    ensures Shown(ms, []) == Texts(ms)
  {
    if ms != [] {
      if ms[0].kind != END { ShownWhole(ms[1..]); }
      assert [] + ms[0].text == ms[0].text;
    }
  }

  /** The client shows exactly the messages that were sent if and only if none of them has the
      type that marks a continued frame. */
  lemma StreamRestored(ms: seq<Message>)
    ensures Shown(AllFrames(ms), []) == Texts(ms) <==> NoneContinued(ms)
  {
    CuttingUnseen(ms, []);
    ShownCount(ms, []);
    if NoneContinued(ms) { ShownWhole(ms); }
  }

  /** A message of the continued type is swallowed into the next one. */
  lemma ContinuedMerges(a: Text, b: Text)
    ensures Shown(AllFrames([Message(CONTINUED, a), Message(1, b)]), []) == [a + b]
  {
    var second := [Message(1, b)];
    assert [Message(CONTINUED, a), Message(1, b)][1..] == second && second[1..] == [];
    assert AllFrames(second) == Frames(Message(1, b)) + [];
    FramesShown(Message(CONTINUED, a), AllFrames(second), []);
    FramesShown(Message(1, b), [], [] + a);
    assert [] + a == a;
  }

  // ----- The loops

  method Cut(text: Text) returns (contents: seq<Text>)
    requires |text| > PIECE
    ensures contents == Pieces(text)
  {
    contents := [];
    var n := |text| / PIECE;
    for i := 0 to n
      invariant i * PIECE <= |text|
      invariant i * PIECE < |text| ==> contents + Pieces(text[i * PIECE..]) == Pieces(text)
      invariant i * PIECE == |text| ==> contents == Pieces(text)
    {
      var piece := text[i * PIECE..(i + 1) * PIECE];
      var rest := text[i * PIECE..];
      assert rest[..PIECE] == piece;
      if (i + 1) * PIECE < |text| {
        assert rest[PIECE..] == text[(i + 1) * PIECE..];
        assert contents + ([piece] + Pieces(rest[PIECE..])) == contents + [piece] + Pieces(rest[PIECE..]);
      } else {
        assert rest == piece;
      }
      contents := contents + [piece];
    }
    if |text| % PIECE != 0 {
      contents := contents + [text[n * PIECE..]];
    }
  }

  lemma {:induction false} FramesFromPieces(m: Message, k: nat)
    requires k < |Pieces(m.text)|
    ensures |Frames(m)| == |Pieces(m.text)|
    ensures Frames(m)[k] == Message(if k < |Pieces(m.text)| - 1 then CONTINUED else m.kind, Pieces(m.text)[k])
    decreases |m.text|
  {
    if |m.text| > PIECE {
      FramesFromPieces(Message(m.kind, m.text[PIECE..]), if k == 0 then 0 else k - 1);
    }
  }

  /** On the wire, continued frames have type 2 and the last frame has the type of the message. */
  lemma FrameTypes(m: Message, k: nat)
    requires IsInt32(m.kind) && k < |Frames(m)|
    ensures IsInt32(Frames(m)[k].kind) && FitsString(Frames(m)[k].text)
    ensures k < |Frames(m)| - 1 ==> FrameBytes(Frames(m)[k])[..4] == [0, 0, 0, 2]
    ensures k == |Frames(m)| - 1 ==> FrameBytes(Frames(m)[k])[..4] == PutInt(m.kind)
  {
    FramesFromPieces(m, 0);
    FramesFromPieces(m, k);
    PiecesFit(m.text, k);
    assert FrameBytes(Frames(m)[k])[..4] == PutInt(Frames(m)[k].kind);
  }

  lemma {:induction false} PiecesFit(text: Text, k: nat)
    requires k < |Pieces(text)|
    ensures |Pieces(text)[k]| <= PIECE
    decreases |text|
  {
    if |text| > PIECE && k > 0 { PiecesFit(text[PIECE..], k - 1); }
  }

  /** One frame, or as many as it takes with 2 MiB of text in each but the last. */
  lemma {:induction false} PieceSizes(text: Text)
    ensures |Pieces(text)| >= 1
    ensures forall k :: 0 <= k < |Pieces(text)| - 1 ==> |Pieces(text)[k]| == 2097152
    ensures text != [] ==> 0 < |Pieces(text)[|Pieces(text)| - 1]| <= 2097152
    decreases |text|
  {
    if |text| > PIECE { PieceSizes(text[PIECE..]); }
  }

  /** str_to_frames. */
  method StrToFrames(m: Message) returns (frames: seq<seq<Byte>>)
    requires IsInt32(m.kind)
    ensures |frames| == |Frames(m)| == |Pieces(m.text)|
    ensures forall k :: 0 <= k < |frames| ==>
      IsInt32(Frames(m)[k].kind) && FitsString(Frames(m)[k].text) && frames[k] == FrameBytes(Frames(m)[k])
  {
    if |m.text| <= PIECE {
      FramesFromPieces(m, 0);
      return [FrameBytes(m)];
    }
    var contents := Cut(m.text);
    FramesFromPieces(m, 0);
    frames := [];
    for i := 0 to |contents|
      invariant |frames| == i
      invariant forall k :: 0 <= k < i ==>
        IsInt32(Frames(m)[k].kind) && FitsString(Frames(m)[k].text) && frames[k] == FrameBytes(Frames(m)[k])
    {
      FramesFromPieces(m, i);
      PiecesFit(m.text, i);
      var kind := if i < |contents| - 1 then CONTINUED else m.kind;
      frames := frames + [FrameBytes(Message(kind, contents[i]))];
    }
  }

  /** What the client reads from a frame; None where it throws. */
  function Parse(frame: seq<Byte>): Option<Message> {
    var (kind, rest) :- GetInt(frame);
    var (text, _) :- GetString(rest);
    Some(Message(kind, text))
  }

  /** The messages up to the first frame that cannot be read. */
  function Parsed(frames: seq<seq<Byte>>): (ms: seq<Message>)
    ensures |ms| <= |frames|
  {
    if frames == [] || Parse(frames[0]) == None then [] else [Parse(frames[0]).value] + Parsed(frames[1..])
  }

  predicate Ends(ms: seq<Message>) {
    exists k :: 0 <= k < |ms| && ms[k].kind == END
  }

  /** The client's loop over received frames.  It shows what can be read up to the end of the stream,
      and throws exactly when it comes to a frame that cannot be read before that. */
  method ShowLog(frames: seq<seq<Byte>>) returns (shown: seq<Text>, threw: bool)
    ensures shown == Shown(Parsed(frames), [])
    ensures threw <==> |Parsed(frames)| < |frames| && !Ends(Parsed(frames))
  {
    shown, threw := [], false;
    var content: Text := [];
    ghost var seen: seq<Message> := [];
    for i := 0 to |frames|
      invariant |seen| == i && Parsed(frames) == seen + Parsed(frames[i..])
      invariant shown + Shown(Parsed(frames[i..]), content) == Shown(Parsed(frames), [])
      invariant !Ends(seen) && !threw
    {
      assert frames[i..][1..] == frames[i + 1..];
      var message := ReadOne(frames[i]);
      if message == None {
        threw := true;
        return;
      }
      var m := message.value;
      StepOn(seen, m, Parsed(frames[i + 1..]), shown, content);
      seen := seen + [m];
      content := content + m.text;
      if m.kind != CONTINUED {
        shown := shown + [content];
        if m.kind == END { return; }
        content := [];
      }
    }
    assert frames[|frames|..] == [];
  }

  /** What one more message does to what has been seen and shown. */
  lemma StepOn(seen: seq<Message>, m: Message, later: seq<Message>, shown: seq<Text>, content: Text)
    ensures seen + ([m] + later) == seen + [m] + later
    ensures Ends(seen + [m]) <==> Ends(seen) || m.kind == END
    ensures m.kind == END ==> Ends(seen + ([m] + later))
    ensures shown + Shown([m] + later, content) ==
      if m.kind == CONTINUED then shown + Shown(later, content + m.text)
      else if m.kind == END then shown + [content + m.text]
      else shown + [content + m.text] + Shown(later, [])
  {
    assert ([m] + later)[1..] == later;
    var more := seen + [m];
    assert more[|seen|] == m && (seen + ([m] + later))[|seen|] == m;
    if Ends(seen) {
      var k :| 0 <= k < |seen| && seen[k].kind == END;
      assert more[k] == seen[k];
    }
  }

  method ReadOne(frame: seq<Byte>) returns (message: Option<Message>)
    ensures message == Parse(frame)
  {
    var stream := new InputStream(frame);
    assert stream.Remaining() == frame;
    var kind := stream.ReadInt();
    if kind == None { return None; }
    var text := stream.ReadString();
    if text == None { return None; }
    message := Some(Message(kind.value, text.value));
  }

  /** Frames as they are written can all be read. */
  lemma {:induction false} WrittenIsParsed(frames: seq<seq<Byte>>, ms: seq<Message>)
    requires |frames| == |ms|
    requires forall k :: 0 <= k < |ms| ==>
      IsInt32(ms[k].kind) && FitsString(ms[k].text) && frames[k] == FrameBytes(ms[k])
    ensures Parsed(frames) == ms
  {
    if ms != [] {
      ReadFrame(ms[0]);
      WrittenIsParsed(frames[1..], ms[1..]);
      assert ms == [ms[0]] + ms[1..];
    }
  }

  lemma ReadFrame(m: Message)
    requires IsInt32(m.kind) && FitsString(m.text)
    ensures GetInt(FrameBytes(m)) == Some((m.kind, PutString(m.text)))
    ensures GetString(PutString(m.text)) == Some((m.text, []))
  {
    GetPutInt(m.kind, PutString(m.text));
    GetPutString(m.text, []);
    assert PutString(m.text) + [] == PutString(m.text);
  }

  // ----- From the server to the screen

  /** Frame `k` on the wire is the one specified. */
  ghost predicate Carries(frames: seq<seq<Byte>>, ms: seq<Message>) {
    && |frames| == |ms|
    && forall k :: 0 <= k < |ms| ==>
      IsInt32(ms[k].kind) && FitsString(ms[k].text) && frames[k] == FrameBytes(ms[k])
  }

  lemma {:induction false} AllFramesAppend(ms: seq<Message>, m: Message)
    ensures AllFrames(ms + [m]) == AllFrames(ms) + Frames(m)
  {
    if ms == [] {
      assert AllFrames([m]) == Frames(m) + AllFrames([m][1..]);
    } else {
      AllFramesAppend(ms[1..], m);
      assert (ms + [m])[1..] == ms[1..] + [m];
      assert Frames(ms[0]) + (AllFrames(ms[1..]) + Frames(m)) == Frames(ms[0]) + AllFrames(ms[1..]) + Frames(m);
    }
  }

  /** Every message cut into frames, and the frames shown by the client: no frame is unreadable, and the
      client shows exactly the messages if and only if none has the continued type. */
  method StreamLog(ms: seq<Message>) returns (shown: seq<Text>, threw: bool)
    requires forall i :: 0 <= i < |ms| ==> IsInt32(ms[i].kind)
    ensures !threw
    ensures shown == Texts(ms) <==> NoneContinued(ms)
  {
    var frames: seq<seq<Byte>> := [];
    for i := 0 to |ms|
      invariant Carries(frames, AllFrames(ms[..i]))
    {
      var more := StrToFrames(ms[i]);
      AllFramesAppend(ms[..i], ms[i]);
      assert ms[..i + 1] == ms[..i] + [ms[i]];
      frames := frames + more;
    }
    assert ms[..|ms|] == ms;
    shown, threw := ShowLog(frames);
    WrittenIsParsed(frames, AllFrames(ms));
    StreamRestored(ms);
  }
}
