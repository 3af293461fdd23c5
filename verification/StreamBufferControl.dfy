/** The stream buffer object: its storage is a fixed array and its two indices are moved in place. */
module StreamBufferControl {
  import opened Arithmetic
  import opened MessageLength
  import opened StreamBuffer
  import opened StreamOrder
  import opened MessageBuffer
  import opened StreamBufferCopies
  import opened StreamCallers

  lemma SendKeepsInv(b: Buffer, data: seq<byte>)
    requires Inv(b) && b.writer.Ready?
    ensures Inv(AfterSend(b, data))
  {
    SendIsRun(b, data);
    RunKeepsInv(b, SendActions(b, data));
  }

  lemma ReceiveKeepsInv(b: Buffer, room: nat)
    requires Inv(b) && b.reader.Resting?
    ensures Inv(AfterReceive(b, room))
  {
    ReceiveIsRun(b, room);
    RunKeepsInv(b, ReceiveActions(b, room));
  }

  /** The part of `data` that a send starting now accepts: all or nothing of a message, what fits of a stream. */
  function Begun(b: Buffer, data: seq<byte>): seq<byte>
    requires b.WellFormed()
  {
    var writing := BeginWriting(data, Spaces(b), b.width);
    if writing.Writing? then writing.message else []
  }

  /** What a send that starts now accepts, published: the histories grow by just that. */
  lemma SendAccepts(b: Buffer, data: seq<byte>)
    requires Inv(b) && b.writer.Ready?
    ensures var part, after := AcceptedPart(data, b.length - 1 - (|b.sent| - |b.received|), b.width), AfterSend(b, data);
            && |Begun(b, data)| == |part|
            && after.sentMessages == b.sentMessages + Single(part)
            && after.sent == b.sent + (if part == [] then [] else Encode(if b.width > 0 then |part| else 0, b.width) + part)
            && (part == [] && (b.width == 0 || data != []) ==> after == b)
  {
    hide Encode;
    DistanceModulo(|b.sent|, |b.received|, b.length);
    EncodeNothing(0);
    assert data[..|data|] == data;
  }

  lemma EncodeNothing(n: nat)
    ensures Encode(n, 0) == []
  {
  }

  lemma AfterReceiveParts(b: Buffer, room: nat)
    requires b.WellFormed() && b.reader.Resting? && Bytes(b) > b.width
    ensures var prefix, count := Get(b.store, b.tail, b.width), Taken(b, room);
            var out := Get(b.store, NextIndex(b.tail, b.width, b.length), count);
            AfterReceive(b, room)
            == if count == 0 then b
               else b.(tail := NextIndex(NextIndex(b.tail, |prefix|, b.length), count, b.length),
                       received := b.received + prefix + out, receivedMessages := b.receivedMessages + [out])
  {
    hide NextIndex, Get;
  }

  lemma NewlyReceived(received: seq<byte>, out: seq<byte>, sent: seq<byte>, n: nat)
    requires |received| + n <= |sent|
    ensures received + out == sent[..|received| + n] ==> out == sent[|received|..][..n]
  {
    if received + out == sent[..|received| + n] {
      assert out == (received + out)[|received|..];
    }
  }

  /** A receive from a stream takes the oldest bytes, as many as there are and the caller has room for. */
  lemma ReceiveGivesOldest(b: Buffer, room: nat)
    requires Inv(b) && b.reader.Resting?
    ensures |b.received| <= |b.sent|
    ensures b.width == 0 ==> AfterReceive(b, room).received
                             == b.sent[..|b.received| + Min(room, |b.sent| - |b.received|)]
    ensures AfterReceive(b, room).sent == b.sent
  {
    ReceiveKeepsInv(b, room);
    DistanceModulo(|b.sent|, |b.received|, b.length);
    hide WriterOk, ReaderOk, Holds;
  }

  class StreamBufferObject {
    const buffer: array<byte>
    const length: nat
    const width: nat
    const range: nat
    var head: nat
    var tail: nat
    ghost var sent: seq<byte>
    ghost var received: seq<byte>
    ghost var sentMessages: seq<seq<byte>>
    ghost var receivedMessages: seq<seq<byte>>

    ghost function View(): Buffer
      reads this, buffer
    {
      Buffer(length, width, buffer[..], head, tail, Ready, Resting, sent, received, sentMessages, receivedMessages)
    }

    ghost predicate Valid()
      reads this, buffer
    {
      buffer.Length == length && 2 * length <= range && Inv(View())
    }

    /** `size` is what the caller asks for; one byte more is allocated. */
    constructor (size: nat, width: nat, range: nat)
      requires width < size && 2 * (size + 1) <= range
      ensures Valid() && Fresh(View()) && fresh(buffer)
      ensures this.length == size + 1 && this.width == width
    {
      var storage := new byte[size + 1](_ => 0x55);
      buffer, length, this.width, this.range := storage, size + 1, width, range;
      head, tail, sent, received, sentMessages, receivedMessages := 0, 0, [], [], [], [];
      new;
      DivModUnique(0, length, 0, 0);
    }

    method CopyBlock(data: seq<byte>, at: nat)
      requires buffer.Length == length && at < length && at + |data| <= length
      modifies buffer
      ensures buffer[..] == Put(old(buffer[..]), at, data)
    {
      ghost var before := buffer[..];
      forall i | 0 <= i < |data| {
        buffer[at + i] := data[i];
      }
      assert buffer[..] == before[..at] + data + before[at + |data|..];
      PutBlock(before, at, data);
    }

    method PutBytes(data: seq<byte>, at: nat) returns (next: nat)
      requires buffer.Length == length && at < length && 0 < |data| <= length
      modifies buffer
      ensures buffer[..] == Put(old(buffer[..]), at, data)
      ensures next == NextIndex(at, |data|, length)
    {
      var first := Min(length - at, |data|);
      PutConcat(buffer[..], at, data[..first], data[first..]);
      assert data[..first] + data[first..] == data;
      CopyBlock(data[..first], at);
      if |data| > first {
        CopyBlock(data[first..], 0);
      }
      next := at + |data|;
      if next >= length {
        next := next - length;
      }
    }

    method GetBytes(count: nat, at: nat) returns (out: seq<byte>, next: nat)
      requires buffer.Length == length && at < length && 0 < count <= length
      ensures out == Get(buffer[..], at, count)
      ensures next == NextIndex(at, count, length)
    {
      var first := Min(length - at, count);
      out := buffer[at..at + first];
      GetBlock(buffer[..], at, first);
      assert out == buffer[..][at..at + first];
      if count > first {
        GetBlock(buffer[..], 0, count - first);
        GetConcat(buffer[..], at, first, count - first);
        assert buffer[..count - first] == buffer[..][0..count - first];
        out := out + buffer[..count - first];
      }
      next := at + count;
      if next >= length {
        next := next - length;
      }
    }

    method WriteMessage(data: seq<byte>, space: nat, required: nat) returns (written: nat)
      requires Valid() && space == Spaces(View()) && required == |data| + width
      modifies this`head, this`sent, this`sentMessages, buffer
      ensures View() == AfterSend(old(View()), data)
      ensures written == |Begun(old(View()), data)|
      ensures var spaces := length - 1 - (|old(sent)| - |received|);
              && (width == 0 ==> written == Min(|data|, spaces) && sent == old(sent) + data[..written])
              && (width > 0 ==> written == (if |data| + width <= spaces then |data| else 0)
                                && sentMessages == old(sentMessages) + if written > 0 then [data] else [])
              && (written == 0 ==> head == old(head) && sent == old(sent))
    {
      hide IndicesOk, WriterOk, ReaderOk, Holds, Encode;
      var next := head;
      written := |data|;
      ghost var was := View();
      SendAccepts(was, data);
      ghost var writing := BeginWriting(data, space, width);
      if width > 0 {
        if space >= required {
          next := PutBytes(Encode(written, width), next);
          PutConcat(was.store, was.head, Encode(written, width), data);
        } else {
          written := 0;
        }
      } else {
        written := Min(written, space);
      }
      if written != 0 {
        next := PutBytes(data[..written], next);
        assert width > 0 ==> data[..written] == data;
        head := next;
        sent := sent + writing.payload;
        sentMessages := sentMessages + [writing.message];
      }
    }
  
    /** Sends without waiting; the result is what an uninterrupted run of the writer's steps leaves. */
    method Send(data: seq<byte>) returns (written: nat)
      requires Valid()
      modifies this`head, this`sent, this`sentMessages, buffer
      ensures Valid()
      ensures View() == AfterSend(old(View()), data)
      ensures View() == Run(old(View()), SendActions(old(View()), data))
      ensures written == |Begun(old(View()), data)|
      ensures var spaces := length - 1 - (|old(sent)| - |received|);
              && (width == 0 ==> written == Min(|data|, spaces) && sent == old(sent) + data[..written])
              && (width > 0 ==> written == (if |data| + width <= spaces then |data| else 0)
                                && sentMessages == old(sentMessages) + if written > 0 then [data] else [])
              && (written == 0 ==> head == old(head) && sent == old(sent))
    {
      ghost var was := View();
      SendKeepsInv(was, data);
      SendIsRun(was, data);
      SpacesExact(head, tail, length, range);
      var space := SpacesAvailable(head, tail, length, range);
      written := WriteMessage(data, space, |data| + width);
    }

    method ReadMessage(room: nat, available: nat) returns (out: seq<byte>)
      requires Valid() && available == Bytes(View()) > width
      modifies this`tail, this`received, this`receivedMessages
      ensures View() == AfterReceive(old(View()), room)
      ensures out == Get(buffer[..], NextIndex(old(tail), width, length), Taken(old(View()), room))
      ensures |out| <= room && (width == 0 ==> received == old(received) + out)
      ensures receivedMessages == old(receivedMessages) + if out == [] then [] else [out]
    {
      hide IndicesOk, WriterOk, ReaderOk, Decode, AfterReceive, Step;
      AfterReceiveParts(View(), room);
      var next, wanted, remaining, prefix := tail, room, available, [];
      if width > 0 {
        prefix, next := GetBytes(width, next);
        wanted := Decode(prefix);
        remaining := available - width;
        if wanted > room {
          wanted := 0;
        }
      }
      var count := Min(wanted, remaining);
      out := [];
      if count != 0 {
        out, tail := GetBytes(count, next);
        received := received + prefix + out;
        receivedMessages := receivedMessages + [out];
      }
    }

    /** Receives without waiting; the result is what an uninterrupted run of the reader's steps leaves. */
    method Receive(room: nat) returns (out: seq<byte>)
      requires Valid()
      modifies this`tail, this`received, this`receivedMessages
      ensures Valid()
      ensures View() == AfterReceive(old(View()), room)
      ensures View() == Run(old(View()), ReceiveActions(old(View()), room))
      ensures |out| <= room
      ensures width == 0 ==> var unread := sent[|old(received)|..];
                             out == unread[..Min(room, |unread|)] && received == old(received) + out
      ensures receivedMessages == old(receivedMessages) + if out == [] then [] else [out]
    {
      ghost var was := View();
      ReceiveKeepsInv(was, room);
      ReceiveIsRun(was, room);
      ReceiveGivesOldest(was, room);
      hide AfterReceive, Taken, Get, Run, ReceiveActions, IndicesOk, WriterOk, ReaderOk;
      BytesExact(head, tail, length, range);
      var available := BytesInBuffer(head, tail, length, range);
      out := [];
      if available > width {
        out := ReadMessage(room, available);
      }
      NewlyReceived(was.received, out, sent, Min(room, |sent| - |was.received|));
    }
  }

  lemma UnreadMessageIsHeld(b: Buffer)
    requires MessageInv(b) && |b.receivedMessages| < |b.sentMessages|
    ensures Bytes(b) >= b.width + |NextMessage(b)| > b.width
    ensures Bytes(b) == |b.sent| - |b.received|
  {
    hide WriterOk, ReaderOk, Holds, Flatten, TakesWhole;
    DistanceModulo(|b.sent|, |b.received|, b.length);
    FlattenAt(b.sentMessages, |b.receivedMessages|, b.width);
    assert b.sentMessages[..|b.receivedMessages|] == b.receivedMessages;
  }

  /** The receiver takes the whole of the oldest message if it fits the caller's room, and nothing if not. */
  lemma TakenIsWholeMessage(b: Buffer, room: nat)
    requires MessageInv(b) && b.reader.Resting? && Fit(b.sentMessages, b.width)
    requires |b.receivedMessages| < |b.sentMessages|
    ensures Bytes(b) > b.width
    ensures Taken(b, room) == if |NextMessage(b)| <= room then |NextMessage(b)| else 0
  {
    UnreadMessageIsHeld(b);
    var copies := Repeat(CopyOut, b.width);
    var b1 := Step(b, StartReceive(room));
    var b2, prefix := Run(b1, copies), Get(b.store, b.tail, b.width);
    AfterPrefix(b, room);
    StepKeepsInv(b, StartReceive(room));
    RunKeepsInv(b1, copies);
    assert prefix == b.sent[|b.received|..|b.received| + b.width] by {
      hide Run, Get, Taken, NextCount, IndicesOk, WriterOk;
      assert ReaderOk(b2) && prefix + [] == prefix;
    }
    hide Inv, MessagesOk, TakesWhole, Get, NextCount, Run;
    CountIsWholeMessage(b, prefix, room, Bytes(b));
  }

  /**
   * An uninterrupted receive from a message buffer that holds something hands over exactly the oldest message when the
   * caller has room for it, and otherwise changes nothing.
   */
  lemma ReceiveTakesOldest(b: Buffer, room: nat)
    requires MessageInv(b) && b.reader.Resting? && Fit(b.sentMessages, b.width)
    requires |b.receivedMessages| < |b.sentMessages|
    ensures var message, after := NextMessage(b), AfterReceive(b, room);
            if |message| <= room then
              && after.receivedMessages == b.receivedMessages + [message]
              && after == b.(tail := after.tail, received := after.received, receivedMessages := after.receivedMessages)
            else after == b
  {
    TakenIsWholeMessage(b, room);
    ReceiveIsRun(b, room);
    ReceiveLeavesSent(b, room);
    RunKeepsMessages(b, ReceiveActions(b, room));
    hide IndicesOk, WriterOk, ReaderOk, Get, Taken, Run;
    var after := AfterReceive(b, room);
    if |NextMessage(b)| <= room {
      assert after.receivedMessages[|b.receivedMessages|] == after.sentMessages[|b.receivedMessages|];
    }
  }

  lemma ReceiveLeavesSent(b: Buffer, room: nat)
    requires b.WellFormed() && b.reader.Resting?
    ensures AfterReceive(b, room).sentMessages == b.sentMessages
  {
    hide Get, Taken;
  }
}
