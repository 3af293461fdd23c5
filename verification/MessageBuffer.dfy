/** Message buffers: the reader receives whole messages, in the order sent. */
module MessageBuffer {
  import opened Arithmetic
  import opened MessageLength
  import opened StreamBuffer
  import opened StreamOrder

  /** Every published message has a length its prefix can hold. */
  ghost predicate Fit(messages: seq<seq<byte>>, width: nat) {
    forall i :: 0 <= i < |messages| ==> |messages[i]| < Range(width)
  }

  function NextMessage(b: Buffer): seq<byte>
    requires |b.receivedMessages| < |b.sentMessages|
  {
    b.sentMessages[|b.receivedMessages|]
  }

  ghost predicate MessagesOk(b: Buffer) {
    && b.sent == Flatten(b.sentMessages, b.width)
    && b.received == Flatten(b.receivedMessages, b.width)
    && b.receivedMessages <= b.sentMessages
    && (forall i :: 0 <= i < |b.sentMessages| ==> b.sentMessages[i] != [])
  }

  /** A reader under way has a whole message before it and takes all of it or, for want of room, nothing. */
  ghost predicate TakesWhole(b: Buffer) {
    b.reader.Resting? ||
    (&& |b.receivedMessages| < |b.sentMessages|
     && var message := NextMessage(b);
        if b.reader.ReadingLength? then b.width + |message| <= b.reader.available
        else b.reader.count == 0 || b.reader.count == |message|)
  }

  ghost predicate MessageInv(b: Buffer) {
    && Inv(b)
    && b.width > 0
    && MessagesOk(b)
    && TakesWhole(b)
  }

  lemma FlattenSnoc(messages: seq<seq<byte>>, message: seq<byte>, width: nat)
    ensures Flatten(messages + [message], width) == Flatten(messages, width) + Frame(message, width)
  {
    FlattenConcat(messages, [message], width);
    assert Flatten([message], width) == Frame(message, width) + Flatten([], width);
  }

  lemma PublishKeepsMessages(b: Buffer)
    requires MessageInv(b)
    ensures MessagesOk(Step(b, Publish)) && TakesWhole(Step(b, Publish))
  {
    hide IndicesOk, ReaderOk, Frame;
    if b.writer.Writing? {
      FlattenSnoc(b.sentMessages, b.writer.message, b.width);
    }
  }

  lemma StartReceiveKeepsMessages(b: Buffer, room: nat)
    requires MessageInv(b)
    ensures MessagesOk(Step(b, StartReceive(room))) && TakesWhole(Step(b, StartReceive(room)))
  {
    hide ReaderOk, WriterOk, Holds, Flatten;
    DistanceModulo(|b.sent|, |b.received|, b.length);
    if b.reader.Resting? && Bytes(b) > b.width {
      assert |b.receivedMessages| < |b.sentMessages| by {
        assert b.receivedMessages == b.sentMessages ==> |b.sent| == |b.received|;
      }
      FlattenAt(b.sentMessages, |b.receivedMessages|, b.width);
      assert b.sentMessages[..|b.receivedMessages|] == b.receivedMessages;
    }
  }

  /** What follows the bytes received begins with the frame of the oldest unread message. */
  lemma NextFrame(b: Buffer)
    requires MessagesOk(b) && |b.receivedMessages| < |b.sentMessages|
    ensures var t, n := |b.received|, b.width + |NextMessage(b)|;
            t + n <= |b.sent| && b.sent[t..t + n] == Frame(NextMessage(b), b.width)
  {
    hide Flatten, Frame;
    FlattenAt(b.sentMessages, |b.receivedMessages|, b.width);
    assert b.sentMessages[..|b.receivedMessages|] == b.receivedMessages;
  }

  /** A complete prefix read out of the buffer is the one written for the oldest unread message. */
  lemma PrefixIsNextLength(b: Buffer, prefix: seq<byte>)
    requires MessageInv(b) && |b.receivedMessages| < |b.sentMessages|
    requires |b.received| + b.width <= |b.sent|
    requires prefix == b.sent[|b.received|..|b.received| + b.width]
    ensures prefix == Encode(|NextMessage(b)|, b.width)
  {
    hide Inv, TakesWhole, MessagesOk, Encode;
    NextFrame(b);
    FrameSlices(b.sent, |b.received|, NextMessage(b), b.width);
  }

  /** Likewise the bytes after it are that message's own. */
  lemma BodyIsNextMessage(b: Buffer, body: seq<byte>)
    requires MessageInv(b) && |b.receivedMessages| < |b.sentMessages|
    requires |body| == |NextMessage(b)|
    requires |b.received| + b.width + |body| <= |b.sent|
    requires body == b.sent[|b.received| + b.width..|b.received| + b.width + |body|]
    ensures body == NextMessage(b)
  {
    hide Inv, TakesWhole, MessagesOk, Encode;
    NextFrame(b);
    FrameSlices(b.sent, |b.received|, NextMessage(b), b.width);
  }

  lemma FrameSlices(bytes: seq<byte>, t: nat, message: seq<byte>, width: nat)
    requires t + width + |message| <= |bytes| && bytes[t..t + width + |message|] == Frame(message, width)
    ensures bytes[t..t + width] == Encode(|message|, width)
    ensures bytes[t + width..t + width + |message|] == message
  {
    hide Encode;
    var frame := bytes[t..t + width + |message|];
    assert frame[..width] == bytes[t..t + width];
    assert frame[width..] == bytes[t + width..t + width + |message|];
  }

  /**
   * What the receiver decides once the prefix is complete: with enough room it takes the whole of the oldest
   * message exactly when that message's length fits the prefix.
   */
  lemma CountIsWholeMessage(b: Buffer, prefix: seq<byte>, room: nat, available: nat)
    requires MessageInv(b) && |b.receivedMessages| < |b.sentMessages|
    requires |b.received| + b.width <= |b.sent|
    requires prefix == b.sent[|b.received|..|b.received| + b.width]
    requires b.width + |NextMessage(b)| <= available
    ensures var n := |NextMessage(b)|;
            && (n < Range(b.width) ==> NextCount(prefix, room, available) == if n > room then 0 else n)
            && (n >= Range(b.width) ==> NextCount(prefix, room, available) < n)
  {
    hide Inv, TakesWhole, MessagesOk;
    PrefixIsNextLength(b, prefix);
    var n, r := |NextMessage(b)|, Range(b.width);
    DecodeEncode(n, b.width);
    assert n % r < r;
  }

  lemma CopyOutKeepsMessages(b: Buffer)
    requires MessageInv(b) && Fit(b.sentMessages, b.width)
    ensures MessagesOk(Step(b, CopyOut)) && TakesWhole(Step(b, CopyOut))
  {
    hide IndicesOk, WriterOk, Flatten, Decode, Holds;
    CopyOutKeepsInv(b);
    if b.reader.ReadingLength? && |b.reader.prefix| + 1 == b.width {
      var r := Step(b, CopyOut).reader;
      assert r.prefix + r.out == r.prefix;
      CountIsWholeMessage(b, r.prefix, b.reader.room, b.reader.available);
    }
  }

  lemma EndReceiveKeepsMessages(b: Buffer)
    requires MessageInv(b) && Fit(b.sentMessages, b.width)
    ensures MessagesOk(Step(b, EndReceive)) && TakesWhole(Step(b, EndReceive))
  {
    hide IndicesOk, WriterOk, Flatten, Frame, Holds;
    if b.reader.ReadingData? && |b.reader.out| == b.reader.count > 0 {
      var ReadingData(prefix, _, out) := b.reader;
      var t, k := |b.received|, |b.receivedMessages|;
      assert |prefix| == b.width;
      assert (prefix + out)[..b.width] == prefix && (prefix + out)[b.width..] == out;
      PrefixIsNextLength(b, prefix);
      BodyIsNextMessage(b, out);
      FlattenSnoc(b.receivedMessages, out, b.width);
      assert prefix + out == Frame(out, b.width) by { FrameParts(prefix, out, b.width); }
      assert b.received + prefix + out == b.received + (prefix + out);
    }
  }

  lemma FrameParts(prefix: seq<byte>, message: seq<byte>, width: nat)
    requires prefix == Encode(|message|, width)
    ensures prefix + message == Frame(message, width)
  {
  }

  lemma StepKeepsMessages(b: Buffer, action: Action)
    requires MessageInv(b) && Fit(b.sentMessages, b.width)
    ensures MessageInv(Step(b, action))
  {
    StepKeepsInv(b, action);
    hide Inv, MessagesOk, TakesWhole;
    match action
    case Publish => PublishKeepsMessages(b);
    case StartReceive(room) => StartReceiveKeepsMessages(b, room);
    case CopyOut => CopyOutKeepsMessages(b);
    case EndReceive => EndReceiveKeepsMessages(b);
    case _ => OtherStepsKeepMessages(b, action);
  }

  lemma OtherStepsKeepMessages(b: Buffer, action: Action)
    requires MessageInv(b)
    requires action.SampleSpace? || action.StartSend? || action.CopyIn?
    ensures MessagesOk(Step(b, action)) && TakesWhole(Step(b, action))
  {
    hide IndicesOk, WriterOk, ReaderOk, Flatten;
  }

  lemma {:induction false} SentOnlyGrows(b: Buffer, actions: seq<Action>)
    requires b.WellFormed()
    ensures b.sentMessages <= Run(b, actions).sentMessages
    decreases |actions|
  {
    if actions != [] {
      SentOnlyGrows(Step(b, actions[0]), actions[1..]);
    }
  }

  lemma {:induction false} RunKeepsMessages(b: Buffer, actions: seq<Action>)
    requires MessageInv(b) && Fit(Run(b, actions).sentMessages, b.width)
    ensures MessageInv(Run(b, actions))
    decreases |actions|
  {
    SentOnlyGrows(b, actions);
    hide IndicesOk, WriterOk, ReaderOk, MessagesOk, TakesWhole, Step;
    if actions != [] {
      assert forall i :: 0 <= i < |b.sentMessages| ==> b.sentMessages[i] == Run(b, actions).sentMessages[i];
      StepKeepsMessages(b, actions[0]);
      RunKeepsMessages(Step(b, actions[0]), actions[1..]);
    }
  }

  /** The messages received are the first of the messages sent, whole and in order, for every interleaving. */
  lemma MessagesArriveInOrder(b: Buffer, actions: seq<Action>)
    requires Fresh(b) && b.width > 0
    requires Fit(Run(b, actions).sentMessages, b.width)
    ensures Run(b, actions).receivedMessages <= Run(b, actions).sentMessages
    ensures Run(b, actions).sent == Flatten(Run(b, actions).sentMessages, b.width)
  {
    RunKeepsMessages(b, actions);
  }

  ghost predicate Below(messages: seq<seq<byte>>, bound: nat) {
    forall i :: 0 <= i < |messages| ==> |messages[i]| < bound
  }

  lemma {:induction false} LengthsStayBelowCapacity(b: Buffer, actions: seq<Action>)
    requires b.WellFormed() && Below(b.sentMessages, b.length)
    ensures Below(Run(b, actions).sentMessages, b.length)
    decreases |actions|
  {
    if actions != [] {
      var b' := Step(b, actions[0]);
      assert Below(b'.sentMessages, b.length) by {
        hide NextReader, Distance, NextIndex;
      }
      LengthsStayBelowCapacity(b', actions[1..]);
    }
  }

  /** A buffer no longer than the range of its length type never holds a message too long for its prefix. */
  lemma SmallBuffersDeliverEverything(b: Buffer, actions: seq<Action>)
    requires Fresh(b) && b.width > 0
    requires b.length <= Range(b.width)
    ensures Run(b, actions).receivedMessages <= Run(b, actions).sentMessages
  {
    LengthsStayBelowCapacity(b, actions);
    MessagesArriveInOrder(b, actions);
  }
}
