/** What every interleaving of the writer and the reader keeps, and what the reader therefore receives. */
module StreamOrder {
  import opened Arithmetic
  import opened MessageLength
  import opened StreamBuffer

  ghost predicate Holds(store: seq<byte>, length: nat, from: nat, bytes: seq<byte>)
    requires length > 0 && |store| == length
  {
    forall k {:trigger bytes[k]} :: 0 <= k < |bytes| ==> store[(from + k) % length] == bytes[k]
  }

  /** The two indices are the totals modulo the length, and the unread bytes lie between them unharmed. */
  ghost predicate IndicesOk(b: Buffer)
    requires b.WellFormed()
  {
    var h, t := |b.sent|, |b.received|;
    && t <= h < t + b.length
    && b.head == h % b.length
    && b.tail == t % b.length
    && b.received == b.sent[..t]
    && Holds(b.store, b.length, t, b.sent[t..])
  }

  /** The writer keeps to space that was free when it looked; such space stays free. */
  ghost predicate WriterOk(b: Buffer)
    requires b.WellFormed()
  {
    var h, t := |b.sent|, |b.received|;
    match b.writer
    case Ready => true
    case Sampled(space) => h + space < t + b.length
    case Writing(payload, copied, message) =>
      && h + |payload| < t + b.length
      && Holds(b.store, b.length, h, payload[..copied])
      && payload == if b.width > 0 then Frame(message, b.width) else message
  }

  /** The reader keeps to bytes that were there when it looked; what it has copied is what was sent. */
  ghost predicate ReaderOk(b: Buffer)
    requires b.WellFormed()
  {
    var h, t := |b.sent|, |b.received|;
    match b.reader
    case Resting => true
    case ReadingLength(available, _, prefix) =>
      && t + available <= h
      && prefix == b.sent[t..t + |prefix|]
    case ReadingData(prefix, count, out) =>
      && |prefix| == b.width
      && t + |prefix| + count <= h
      && prefix + out == b.sent[t..t + |prefix| + |out|]
  }

  ghost predicate Inv(b: Buffer) {
    b.WellFormed() && IndicesOk(b) && WriterOk(b) && ReaderOk(b)
  }

  lemma NextIndexIsModulo(total: nat, count: nat, length: nat)
    requires 0 < length && count <= length
    ensures NextIndex(total % length, count, length) == (total + count) % length
  {
    var q, r := total / length, total % length;
    if r + count >= length {
      DivModUnique(total + count, length, q + 1, r + count - length);
    } else {
      DivModUnique(total + count, length, q, r + count);
    }
  }

  /** Positions less than one lap apart are different slots. */
  lemma SlotsDiffer(i: nat, j: nat, length: nat)
    requires i < j < i + length
    ensures i % length != j % length
  {
    DistanceModulo(j, i, length);
  }

  lemma CopyKeepsOthers(store: seq<byte>, length: nat, from: nat, bytes: seq<byte>, at: nat, value: byte)
    requires length > 0 && |store| == length
    requires Holds(store, length, from, bytes)
    requires from + |bytes| <= at < from + length
    ensures Holds(store[at % length := value], length, from, bytes)
  {
    forall k {:trigger bytes[k]} | 0 <= k < |bytes| ensures store[at % length := value][(from + k) % length] == bytes[k] {
      SlotsDiffer(from + k, at, length);
    }
  }

  lemma HoldsConcat(store: seq<byte>, length: nat, from: nat, a: seq<byte>, c: seq<byte>)
    requires length > 0 && |store| == length
    requires Holds(store, length, from, a) && Holds(store, length, from + |a|, c)
    ensures Holds(store, length, from, a + c)
  {
    forall k {:trigger (a + c)[k]} | 0 <= k < |a + c| ensures store[(from + k) % length] == (a + c)[k] {
      if k >= |a| {
        assert store[(from + |a| + (k - |a|)) % length] == c[k - |a|];
      }
    }
  }

  lemma HoldsAfter(store: seq<byte>, length: nat, from: nat, bytes: seq<byte>, n: nat)
    requires length > 0 && |store| == length && n <= |bytes|
    requires Holds(store, length, from, bytes)
    ensures Holds(store, length, from + n, bytes[n..])
  {
    forall k {:trigger bytes[n..][k]} | 0 <= k < |bytes[n..]| ensures store[(from + n + k) % length] == bytes[n..][k] {
      assert bytes[n + k] == bytes[n..][k];
      assert from + (n + k) == from + n + k;
    }
  }

  lemma CopyInKeepsInv(b: Buffer)
    requires Inv(b)
    ensures Inv(Step(b, CopyIn))
  {
    hide Frame;
    if b.writer.Writing? && b.writer.copied < |b.writer.payload| {
      var Writing(payload, copied, _) := b.writer;
      var h, t, at := |b.sent|, |b.received|, |b.sent| + copied;
      var b' := Step(b, CopyIn);
      NextIndexIsModulo(h, copied, b.length);
      assert b'.store == b.store[at % b.length := payload[copied]];
      CopyKeepsOthers(b.store, b.length, t, b.sent[t..], at, payload[copied]);
      CopyKeepsOthers(b.store, b.length, h, payload[..copied], at, payload[copied]);
      assert payload[..copied + 1] == payload[..copied] + [payload[copied]];
      assert Holds(b'.store, b.length, at, [payload[copied]]);
      HoldsConcat(b'.store, b.length, h, payload[..copied], [payload[copied]]);
    }
  }

  lemma MoreSent(store: seq<byte>, length: nat, sent: seq<byte>, t: nat, payload: seq<byte>)
    requires length > 0 && |store| == length && t <= |sent|
    requires Holds(store, length, t, sent[t..]) && Holds(store, length, |sent|, payload)
    ensures Holds(store, length, t, (sent + payload)[t..])
  {
    HoldsConcat(store, length, t, sent[t..], payload);
    hide Holds;
    assert (sent + payload)[t..] == sent[t..] + payload;
  }

  lemma HeadMoves(h: nat, first: nat, second: nat, length: nat)
    requires 0 < length && first + second <= length
    ensures NextIndex(NextIndex(h % length, first, length), second, length) == (h + (first + second)) % length
  {
    NextIndexIsModulo(h, first, length);
    NextIndexIsModulo(h + first, second, length);
    assert h + first + second == h + (first + second);
  }

  lemma PublishKeepsIndices(b: Buffer)
    requires Inv(b)
    ensures IndicesOk(Step(b, Publish))
  {
    hide Frame, ReaderOk, Holds, NextIndex;
    if b.writer.Writing? && b.writer.copied == |b.writer.payload| && b.writer.message != [] {
      var Writing(payload, copied, message) := b.writer;
      assert payload[..copied] == payload;
      assert |payload| == b.width + |message|;
      HeadMoves(|b.sent|, b.width, |message|, b.length);
      MoreSent(b.store, b.length, b.sent, |b.received|, payload);
      assert (b.sent + payload)[..|b.received|] == b.sent[..|b.received|];
    }
  }

  lemma PublishKeepsWriter(b: Buffer)
    requires Inv(b)
    ensures WriterOk(Step(b, Publish))
  {
    hide Frame, Holds, ReaderOk;
  }

  lemma PublishKeepsInv(b: Buffer)
    requires Inv(b)
    ensures Inv(Step(b, Publish))
  {
    hide Step, IndicesOk, WriterOk, ReaderOk;
    PublishKeepsIndices(b);
    PublishKeepsWriter(b);
    PublishKeepsReader(b);
  }

  lemma PublishKeepsReader(b: Buffer)
    requires Inv(b)
    ensures ReaderOk(Step(b, Publish))
  {
    hide Frame, Holds;
    var b' := Step(b, Publish);
    var t, o := |b.received|, Offset(b.reader);
    assert b.sent <= b'.sent;
    if !b.reader.Resting? {
      assert b'.sent[t..t + o] == b.sent[t..t + o];
    }
  }

  lemma CopyOutKeepsInv(b: Buffer)
    requires Inv(b)
    ensures Inv(Step(b, CopyOut))
  {
    CopyOutKeepsReader(b);
  }

  /** The next byte the reader copies is the next byte that was sent. */
  lemma CopiedByte(b: Buffer)
    requires Inv(b) && !b.reader.Resting?
    requires |b.received| + Offset(b.reader) < |b.sent|
    ensures Offset(b.reader) <= b.length
    ensures b.store[NextIndex(b.tail, Offset(b.reader), b.length)] == b.sent[|b.received| + Offset(b.reader)]
  {
    hide Frame, WriterOk, ReaderOk, NextIndex, Offset;
    var t, o := |b.received|, Offset(b.reader);
    NextIndexIsModulo(t, o, b.length);
    assert b.sent[t..][o] == b.store[(t + o) % b.length];
  }

  lemma CopyOutKeepsReader(b: Buffer)
    requires Inv(b)
    ensures ReaderOk(Step(b, CopyOut))
  {
    hide Frame, Decode, WriterOk, Holds, NextIndex;
    var h, t, o := |b.sent|, |b.received|, Offset(b.reader);
    if !b.reader.Resting? && !(b.reader.ReadingData? && |b.reader.out| == b.reader.count) {
      CopiedByte(b);
      assert b.sent[t..t + o + 1] == b.sent[t..t + o] + [b.sent[t + o]];
      if b.reader.ReadingData? {
        assert b.reader.prefix + (b.reader.out + [b.sent[t + o]]) == (b.reader.prefix + b.reader.out) + [b.sent[t + o]];
      } else {
        var longer := b.reader.prefix + [b.sent[t + o]];
        assert longer + [] == longer;
      }
    }
  }

  lemma EndReceiveKeepsInv(b: Buffer)
    requires Inv(b)
    ensures Inv(Step(b, EndReceive))
  {
    hide Frame, Holds;
    if b.reader.ReadingData? && |b.reader.out| == b.reader.count > 0 {
      var h, t, n := |b.sent|, |b.received|, b.width + b.reader.count;
      NextIndexIsModulo(t, b.width, b.length);
      NextIndexIsModulo(t + b.width, b.reader.count, b.length);
      var b' := Step(b, EndReceive);
      assert b'.received == b.received + (b.reader.prefix + b.reader.out);
      assert b'.received == b.sent[..t + n];
      HoldsAfter(b.store, b.length, t, b.sent[t..], n);
      assert b.sent[t..][n..] == b.sent[t + n..];
    }
  }

  lemma StartsKeepInv(b: Buffer, action: Action)
    requires Inv(b)
    requires action.SampleSpace? || action.StartSend? || action.StartReceive?
    ensures Inv(Step(b, action))
  {
    hide Encode;
    DistanceModulo(|b.sent|, |b.received|, b.length);
  }

  lemma StepKeepsInv(b: Buffer, action: Action)
    requires Inv(b)
    ensures Inv(Step(b, action))
  {
    hide Inv, Step;
    match action
    case CopyIn => CopyInKeepsInv(b);
    case Publish => PublishKeepsInv(b);
    case CopyOut => CopyOutKeepsInv(b);
    case EndReceive => EndReceiveKeepsInv(b);
    case _ => StartsKeepInv(b, action);
  }

  lemma {:induction false} RunKeepsInv(b: Buffer, actions: seq<Action>)
    requires Inv(b)
    ensures b.WellFormed() && Inv(Run(b, actions))
    decreases |actions|
  {
    hide Step, IndicesOk, WriterOk, ReaderOk;
    if actions != [] {
      StepKeepsInv(b, actions[0]);
      RunKeepsInv(Step(b, actions[0]), actions[1..]);
    }
  }

  /** The bytes taken out are, in order, the first of the bytes put in, and no unread byte has been overwritten. */
  lemma ReceivedIsPrefixOfSent(b: Buffer, actions: seq<Action>)
    requires Fresh(b)
    ensures var e := Run(b, actions);
            && e.received <= e.sent
            && forall k :: |e.received| <= k < |e.sent| ==> e.store[k % e.length] == e.sent[k]
  {
    RunKeepsInv(b, actions);
    var e := Run(b, actions);
    var t := |e.received|;
    forall k | t <= k < |e.sent| ensures e.store[k % e.length] == e.sent[k] {
      assert e.sent[t..][k - t] == e.sent[k];
    }
  }

  /** Each side's old sample is never more than what is really there, so nothing is overwritten or read too soon. */
  lemma SamplesAreSafe(b: Buffer, actions: seq<Action>)
    requires Fresh(b)
    ensures var e := Run(b, actions);
            && Bytes(e) == |e.sent| - |e.received|
            && Bytes(e) + Spaces(e) == e.length - 1
            && (e.writer.Sampled? ==> e.writer.space <= Spaces(e))
            && (e.writer.Writing? ==> |e.writer.payload| <= Spaces(e))
            && (e.reader.ReadingLength? ==> e.reader.available <= Bytes(e))
            && (e.reader.ReadingData? ==> e.width + e.reader.count <= Bytes(e))
  {
    RunKeepsInv(b, actions);
    var e := Run(b, actions);
    DistanceModulo(|e.sent|, |e.received|, e.length);
  }
}
