/**
 * The routines of stream_buffer.c that change a buffer in place: each copies in at most two blocks, split where the
 * storage ends, and is proved against the byte-by-byte steps of the interleaving model.
 */
module StreamBufferCopies {
  import opened Arithmetic
  import opened MessageLength
  import opened StreamBuffer

  /** The storage after the bytes have been put one by one at head, head + 1, ... around the end. */
  function Put(store: seq<byte>, head: nat, data: seq<byte>): (s: seq<byte>)
    requires head < |store|
    ensures |s| == |store|
    decreases |data|
  {
    if data == [] then store
    else Put(store[head := data[0]], NextIndex(head, 1, |store|), data[1..])
  }

  function Get(store: seq<byte>, tail: nat, count: nat): (s: seq<byte>)
    requires tail < |store|
    ensures |s| == count
    decreases count
  {
    if count == 0 then [] else [store[tail]] + Get(store, NextIndex(tail, 1, |store|), count - 1)
  }

  /** Bytes put in one run that does not reach past the end of the storage. */
  lemma {:induction false} PutBlock(store: seq<byte>, head: nat, data: seq<byte>)
    requires head < |store| && head + |data| <= |store|
    ensures Put(store, head, data) == store[..head] + data + store[head + |data|..]
    decreases |data|
  {
    if data == [] {
      assert store == store[..head] + data + store[head..];
    } else if head + 1 < |store| {
      PutBlock(store[head := data[0]], head + 1, data[1..]);
      hide Put;
      FirstOfBlock(store, head, data);
    } else {
      assert data[1..] == [];
      assert store[head := data[0]] == store[..head] + data + store[head + 1..];
    }
  }

  lemma FirstOfBlock(store: seq<byte>, head: nat, data: seq<byte>)
    requires head < |store| && head + |data| <= |store| && data != []
    ensures var store' := store[head := data[0]];
            store'[..head + 1] + data[1..] + store'[head + |data|..]
            == store[..head] + data + store[head + |data|..]
  {
    assert [data[0]] + data[1..] == data;
  }

  lemma {:induction false} PutConcat(store: seq<byte>, head: nat, a: seq<byte>, c: seq<byte>)
    requires head < |store| && |a| <= |store|
    ensures Put(store, head, a + c) == Put(Put(store, head, a), NextIndex(head, |a|, |store|), c)
    decreases |a|
  {
    if a == [] {
      assert a + c == c;
    } else {
      assert (a + c)[1..] == a[1..] + c;
      PutConcat(store[head := a[0]], NextIndex(head, 1, |store|), a[1..], c);
    }
  }

  lemma {:induction false} GetBlock(store: seq<byte>, tail: nat, count: nat)
    requires tail < |store| && tail + count <= |store|
    ensures Get(store, tail, count) == store[tail..tail + count]
    decreases count
  {
    if count > 0 && tail + 1 < |store| {
      GetBlock(store, tail + 1, count - 1);
    }
  }

  lemma {:induction false} GetConcat(store: seq<byte>, tail: nat, m: nat, n: nat)
    requires tail < |store| && m <= |store|
    ensures Get(store, tail, m + n) == Get(store, tail, m) + Get(store, NextIndex(tail, m, |store|), n)
    decreases m
  {
    if m > 0 {
      GetConcat(store, NextIndex(tail, 1, |store|), m - 1, n);
    }
  }

  function Repeat(action: Action, n: nat): (s: seq<Action>)
    ensures |s| == n
  {
    if n == 0 then [] else [action] + Repeat(action, n - 1)
  }

  lemma {:induction false} RunConcat(b: Buffer, a: seq<Action>, c: seq<Action>)
    requires b.WellFormed()
    ensures Run(b, a + c) == Run(Run(b, a), c)
    decreases |a|
  {
    if a == [] {
      assert a + c == c;
    } else {
      assert (a + c)[1..] == a[1..] + c;
      RunConcat(Step(b, a[0]), a[1..], c);
    }
  }

  lemma RunRepeat(b: Buffer, action: Action, n: nat)
    requires b.WellFormed()
    ensures Run(b, Repeat(action, n)) == if n == 0 then b else Run(Step(b, action), Repeat(action, n - 1))
  {
    hide Step;
    if n > 0 {
      assert Repeat(action, n)[0] == action && Repeat(action, n)[1..] == Repeat(action, n - 1);
    }
  }

  lemma NextIndexTwice(index: nat, count: nat, length: nat)
    requires index < length && count + 1 <= length
    ensures NextIndex(NextIndex(index, count, length), 1, length) == NextIndex(index, count + 1, length)
  {
  }

  /** Copying the rest of the payload byte by byte is one Put. */
  lemma {:induction false} CopyInAll(b: Buffer)
    requires b.WellFormed() && b.writer.Writing?
    ensures var n, at := |b.writer.payload| - b.writer.copied, NextIndex(b.head, b.writer.copied, b.length);
            Run(b, Repeat(CopyIn, n))
            == b.(store := Put(b.store, at, b.writer.payload[b.writer.copied..]),
                  writer := b.writer.(copied := |b.writer.payload|))
    decreases if b.writer.Writing? then |b.writer.payload| - b.writer.copied else 0
  {
    hide Run, Repeat;
    var n, rest := |b.writer.payload| - b.writer.copied, b.writer.payload[b.writer.copied..];
    RunRepeat(b, CopyIn, n);
    if n > 0 {
      var b' := Step(b, CopyIn);
      CopyInAll(b');
      hide Step, NextIndex;
      NextIndexTwice(b.head, b.writer.copied, b.length);
      assert b'.writer.payload[b'.writer.copied..] == rest[1..];
    }
  }

  /** Copying the rest of the data out byte by byte is one Get. */
  lemma {:induction false} CopyOutAll(b: Buffer)
    requires b.WellFormed() && b.reader.ReadingData?
    ensures var n, at := b.reader.count - |b.reader.out|, NextIndex(b.tail, Offset(b.reader), b.length);
            Run(b, Repeat(CopyOut, n)) == b.(reader := b.reader.(out := b.reader.out + Get(b.store, at, n)))
    decreases if b.reader.ReadingData? then b.reader.count - |b.reader.out| else 0
  {
    hide Run, Repeat;
    var n, at := b.reader.count - |b.reader.out|, NextIndex(b.tail, Offset(b.reader), b.length);
    RunRepeat(b, CopyOut, n);
    if n > 0 {
      var b' := Step(b, CopyOut);
      assert b' == b.(reader := b.reader.(out := b.reader.out + [b.store[at]]));
      CopyOutAll(b');
      hide Step, NextIndex;
      NextIndexTwice(b.tail, Offset(b.reader), b.length);
      GetNext(b.reader.out, b.store, at, n);
    } else {
      assert b.reader.out + [] == b.reader.out;
    }
  }

  lemma GetNext(out: seq<byte>, store: seq<byte>, at: nat, n: nat)
    requires at < |store| && n > 0
    ensures out + Get(store, at, n) == (out + [store[at]]) + Get(store, NextIndex(at, 1, |store|), n - 1)
  {
  }

  /** Likewise the prefix, whose last byte decides how much data is taken. */
  lemma {:induction false} CopyPrefix(b: Buffer)
    requires b.WellFormed() && b.reader.ReadingLength?
    ensures var n, at := b.width - |b.reader.prefix|, NextIndex(b.tail, |b.reader.prefix|, b.length);
            var prefix := b.reader.prefix + Get(b.store, at, n);
            Run(b, Repeat(CopyOut, n))
            == b.(reader := ReadingData(prefix, NextCount(prefix, b.reader.room, b.reader.available), []))
    decreases if b.reader.ReadingLength? then b.width - |b.reader.prefix| else 0
  {
    hide Run, Repeat, NextCount;
    var n, at := b.width - |b.reader.prefix|, NextIndex(b.tail, |b.reader.prefix|, b.length);
    RunRepeat(b, CopyOut, n);
    var b' := Step(b, CopyOut);
    GetNext(b.reader.prefix, b.store, at, n);
    if n > 1 {
      assert b' == b.(reader := ReadingLength(b.reader.available, b.reader.room, b.reader.prefix + [b.store[at]]));
      CopyPrefix(b');
      hide Step, NextIndex;
      NextIndexTwice(b.tail, |b.reader.prefix|, b.length);
    } else {
      RunRepeat(b', CopyOut, 0);
      assert (b.reader.prefix + [b.store[at]]) + [] == b.reader.prefix + [b.store[at]];
    }
  }

  /** The buffer after a send that nothing interrupted. */
  function AfterSend(b: Buffer, data: seq<byte>): Buffer
    requires b.WellFormed() && b.writer.Ready?
  {
    var writing := BeginWriting(data, Spaces(b), b.width);
    if writing.Writing? then
      Step(b.(store := Put(b.store, b.head, writing.payload), writer := writing.(copied := |writing.payload|)), Publish)
    else b
  }

  function SendActions(b: Buffer, data: seq<byte>): seq<Action>
    requires b.WellFormed()
  {
    var writing := BeginWriting(data, Spaces(b), b.width);
    [SampleSpace, StartSend(data)] + Repeat(CopyIn, if writing.Writing? then |writing.payload| else 0) + [Publish]
  }

  lemma BeginSend(b: Buffer, data: seq<byte>)
    requires b.WellFormed() && b.writer.Ready?
    ensures Step(Step(b, SampleSpace), StartSend(data)) == b.(writer := BeginWriting(data, Spaces(b), b.width))
  {
    hide BeginWriting;
  }

  lemma CopyInWhole(b: Buffer)
    requires b.WellFormed() && b.writer.Writing? && b.writer.copied == 0
    ensures Run(b, Repeat(CopyIn, |b.writer.payload|))
         == b.(store := Put(b.store, b.head, b.writer.payload), writer := b.writer.(copied := |b.writer.payload|))
  {
    CopyInAll(b);
    hide *;
    var n, at := |b.writer.payload| - b.writer.copied, NextIndex(b.head, b.writer.copied, b.length);
    assert b.writer.payload[b.writer.copied..] == b.writer.payload;
    assert at == b.head by { NoStep(b.head, b.length); }
  }

  lemma NoStep(index: nat, length: nat)
    requires index < length
    ensures NextIndex(index, 0, length) == index
  {
  }

  lemma FinishSend(b: Buffer)
    requires b.WellFormed() && (b.writer.Writing? ==> b.writer.copied == 0)
    ensures var copies := Repeat(CopyIn, if b.writer.Writing? then |b.writer.payload| else 0);
            Step(Run(b, copies), Publish)
            == if b.writer.Writing? then
                 Step(b.(store := Put(b.store, b.head, b.writer.payload),
                         writer := b.writer.(copied := |b.writer.payload|)), Publish)
               else b
  {
    if b.writer.Writing? {
      CopyInWhole(b);
    } else {
      hide Step, Run, Repeat, Put;
      RunRepeat(b, CopyIn, 0);
      PublishWhenReady(b);
    }
  }

  /** An uninterrupted send is the run of its steps. */
  lemma SendIsRun(b: Buffer, data: seq<byte>)
    requires b.WellFormed() && b.writer.Ready?
    ensures Run(b, SendActions(b, data)) == AfterSend(b, data)
  {
    var w := BeginWriting(data, Spaces(b), b.width);
    var n := if w.Writing? then |w.payload| else 0;
    var b1 := Step(Step(b, SampleSpace), StartSend(data));
    BeginSend(b, data);
    FreshWriter(data, Spaces(b), b.width);
    hide Step, Run, BeginWriting, Repeat, Spaces, Put;
    RunTwo(b, SampleSpace, StartSend(data));
    RunParts(b, [SampleSpace, StartSend(data)], Repeat(CopyIn, n), Publish);
    FinishSend(b1);
    assert w.Ready? ==> b1 == b;
  }

  lemma FreshWriter(data: seq<byte>, space: nat, width: nat)
    ensures var w := BeginWriting(data, space, width); w.Ready? || (w.Writing? && w.copied == 0)
  {
  }

  lemma PublishWhenReady(b: Buffer)
    requires b.WellFormed() && !b.writer.Writing?
    ensures Step(b, Publish) == b
  {
  }

  lemma RunOne(b: Buffer, action: Action)
    requires b.WellFormed()
    ensures Run(b, [action]) == Step(b, action)
  {
    hide Step;
    assert [action][1..] == [];
  }

  lemma RunParts(b: Buffer, first: seq<Action>, second: seq<Action>, last: Action)
    requires b.WellFormed()
    ensures Run(b, first + second + [last]) == Step(Run(Run(b, first), second), last)
  {
    hide Run, Step;
    RunConcat(b, first, second);
    RunConcat(b, first + second, [last]);
    RunOne(Run(b, first + second), last);
  }

  lemma RunTwo(b: Buffer, first: Action, second: Action)
    requires b.WellFormed()
    ensures Run(b, [first, second]) == Step(Step(b, first), second)
  {
    hide Step;
    assert [first, second][1..] == [second];
    RunOne(Step(b, first), second);
  }

  /** The buffer after a receive that nothing interrupted. */
  function AfterReceive(b: Buffer, room: nat): Buffer
    requires b.WellFormed() && b.reader.Resting?
  {
    if Bytes(b) <= b.width then b
    else
      var prefix, count := Get(b.store, b.tail, b.width), Taken(b, room);
      var out := Get(b.store, NextIndex(b.tail, b.width, b.length), count);
      Step(b.(reader := ReadingData(prefix, count, out)), EndReceive)
  }

  lemma FinishReceive(b: Buffer)
    requires b.WellFormed() && !b.reader.ReadingLength? && (b.reader.ReadingData? ==> b.reader.out == [])
    ensures var copies := Repeat(CopyOut, if b.reader.ReadingData? then b.reader.count else 0);
            Step(Run(b, copies), EndReceive)
            == if b.reader.ReadingData? then
                 var at := NextIndex(b.tail, |b.reader.prefix|, b.length);
                 Step(b.(reader := b.reader.(out := Get(b.store, at, b.reader.count))), EndReceive)
               else b
  {
    hide Step, Run, Repeat, Get;
    if b.reader.ReadingData? {
      CopyOutAll(b);
      var at := NextIndex(b.tail, |b.reader.prefix|, b.length);
      assert [] + Get(b.store, at, b.reader.count) == Get(b.store, at, b.reader.count);
    } else {
      RunRepeat(b, CopyOut, 0);
      EndWhenResting(b);
    }
  }

  /** An uninterrupted receive is the run of its steps. */
  lemma ReceiveIsRun(b: Buffer, room: nat)
    requires b.WellFormed() && b.reader.Resting?
    ensures Run(b, ReceiveActions(b, room)) == AfterReceive(b, room)
  {
    var start := Repeat(CopyOut, if Bytes(b) > b.width then b.width else 0);
    AfterPrefix(b, room);
    hide Step, Run, BeginReading, Repeat, Taken, Get;
    var b2 := Run(Step(b, StartReceive(room)), start);
    RunOne(b, StartReceive(room));
    RunConcat(b, [StartReceive(room)], start);
    RunParts(b, [StartReceive(room)] + start, Repeat(CopyOut, Taken(b, room)), EndReceive);
    FinishReceive(b2);
  }

  lemma EndWhenResting(b: Buffer)
    requires b.WellFormed() && b.reader.Resting?
    ensures Step(b, EndReceive) == b
  {
  }

  lemma AfterPrefix(b: Buffer, room: nat)
    requires b.WellFormed() && b.reader.Resting?
    ensures var start := Repeat(CopyOut, if Bytes(b) > b.width then b.width else 0);
            && (Bytes(b) <= b.width ==> Taken(b, room) == 0)
            && Run(Step(b, StartReceive(room)), start)
               == if Bytes(b) <= b.width then b
                  else b.(reader := ReadingData(Get(b.store, b.tail, b.width), Taken(b, room), []))
  {
    hide Run, Repeat, NextCount;
    var b1 := Step(b, StartReceive(room));
    assert b1 == b.(reader := BeginReading(Bytes(b), room, b.width));
    if Bytes(b) > b.width > 0 {
      CopyPrefix(b1);
      assert [] + Get(b.store, b.tail, b.width) == Get(b.store, b.tail, b.width);
    } else {
      RunRepeat(b1, CopyOut, 0);
    }
  }

  function ReceiveActions(b: Buffer, room: nat): seq<Action>
    requires b.WellFormed()
  {
    [StartReceive(room)] + Repeat(CopyOut, if Bytes(b) > b.width then b.width else 0)
    + Repeat(CopyOut, Taken(b, room)) + [EndReceive]
  }

  /** How many bytes an uninterrupted receive hands to its caller. */
  function Taken(b: Buffer, room: nat): nat
    requires b.WellFormed()
  {
    var available := Bytes(b);
    if available <= b.width then 0
    else if b.width > 0 then NextCount(Get(b.store, b.tail, b.width), room, available)
    else Min(room, available)
  }
}
