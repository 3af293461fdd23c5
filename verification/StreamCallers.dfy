/** What the callers of a stream or message buffer can rely on: the data they hand in, as far as it is accepted, is what
    comes out. How the sender arrives at what it writes does not appear here. */
module StreamCallers {
  import opened Arithmetic
  import opened MessageLength
  import opened StreamBuffer
  import opened StreamOrder
  import opened MessageBuffer

  /** The part of the data that a buffer with so much space accepts: of a stream the beginning, as far as it fits, and of a
      message all or nothing. */
  function AcceptedPart(data: seq<byte>, space: nat, width: nat): (part: seq<byte>)
    ensures part <= data
  {
    if width == 0 then if |data| <= space then data else data[..space]
    else if |data| + width <= space then data
    else []
  }

  function Single(part: seq<byte>): seq<seq<byte>> { if part == [] then [] else [part] }

  /** What is accepted of the data handed in, call by call, as the run goes on */
  function Accepted(b: Buffer, actions: seq<Action>): seq<seq<byte>>
    requires b.WellFormed()
    decreases |actions|
  {
    if actions == [] then []
    else
      (if actions[0].StartSend? && b.writer.Sampled? then
         Single(AcceptedPart(actions[0].data, b.writer.space, b.width))
       else [])
      + Accepted(Step(b, actions[0]), actions[1..])
  }

  /** What the sender has accepted and not yet published */
  function UnderWay(writer: Writer): seq<seq<byte>> {
    if writer.Writing? then Single(writer.message) else []
  }

  lemma StepAccepts(b: Buffer, a: Action)
    requires b.WellFormed()
    ensures var b' := Step(b, a);
            var part := if a.StartSend? && b.writer.Sampled? then
                          Single(AcceptedPart(a.data, b.writer.space, b.width))
                        else [];
            b.sentMessages + UnderWay(b.writer) + part == b'.sentMessages + UnderWay(b'.writer)
  {
    hide NextReader, NextIndex, Frame, BeginReading, Distance;
    if a.StartSend? {
      assert a.data[..|a.data|] == a.data;
    }
  }

  lemma {:induction false} RunAccepts(b: Buffer, actions: seq<Action>)
    requires b.WellFormed()
    ensures var e := Run(b, actions);
            b.sentMessages + UnderWay(b.writer) + Accepted(b, actions) == e.sentMessages + UnderWay(e.writer)
    decreases |actions|
  {
    hide Step, UnderWay, AcceptedPart, Single;
    if actions != [] {
      StepAccepts(b, actions[0]);
      RunAccepts(Step(b, actions[0]), actions[1..]);
    }
  }

  /** Messages one after the other */
  function Joined(messages: seq<seq<byte>>): seq<byte> {
    if messages == [] then [] else Joined(messages[..|messages| - 1]) + messages[|messages| - 1]
  }

  lemma {:induction false} JoinedMore(a: seq<seq<byte>>, c: seq<seq<byte>>)
    ensures Joined(a + c) == Joined(a) + Joined(c)
    decreases |c|
  {
    if c == [] {
      assert a + c == a;
    } else {
      var last := |c| - 1;
      JoinedMore(a, c[..last]);
      assert (a + c)[..|a + c| - 1] == a + c[..last];
    }
  }

  lemma {:induction false} StreamIsJoined(b: Buffer, actions: seq<Action>)
    requires Inv(b) && b.width == 0 && b.sent == Joined(b.sentMessages)
    ensures Run(b, actions).sent == Joined(Run(b, actions).sentMessages)
    decreases |actions|
  {
    hide IndicesOk, WriterOk, ReaderOk, Step, Joined;
    if actions != [] {
      StepKeepsInv(b, actions[0]);
      StepJoins(b, actions[0]);
      StreamIsJoined(Step(b, actions[0]), actions[1..]);
    }
  }

  lemma StepJoins(b: Buffer, a: Action)
    requires Inv(b) && b.width == 0 && b.sent == Joined(b.sentMessages)
    ensures Step(b, a).sent == Joined(Step(b, a).sentMessages)
  {
    hide NextReader, NextIndex, IndicesOk, ReaderOk, Holds, BeginReading, Distance;
    if a.Publish? && b.writer.Writing? {
      var m := b.writer.message;
      assert (b.sentMessages + [m])[..|b.sentMessages + [m]| - 1] == b.sentMessages;
    }
  }

  /**
   * For every interleaving on a new stream buffer, the bytes received are the beginning of what the callers handed in and
   * had accepted, one call after the other.
   */
  lemma StreamDeliversAccepted(b: Buffer, actions: seq<Action>)
    requires Fresh(b) && b.width == 0
    ensures Run(b, actions).received <= Joined(Accepted(b, actions))
  {
    var e := Run(b, actions);
    ReceivedIsPrefixOfSent(b, actions);
    StreamIsJoined(b, actions);
    RunAccepts(b, actions);
    assert Accepted(b, actions) == e.sentMessages + UnderWay(e.writer);
    JoinedMore(e.sentMessages, UnderWay(e.writer));
  }

  /** On a new message buffer, the messages received are the first of those handed in and accepted. */
  lemma MessagesDeliverAccepted(b: Buffer, actions: seq<Action>)
    requires Fresh(b) && b.width > 0 && Fit(Run(b, actions).sentMessages, b.width)
    ensures Run(b, actions).receivedMessages <= Accepted(b, actions)
  {
    var e := Run(b, actions);
    MessagesArriveInOrder(b, actions);
    RunAccepts(b, actions);
    assert Accepted(b, actions) == e.sentMessages + UnderWay(e.writer);
  }
}
