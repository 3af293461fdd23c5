/**
 * stream_buffer.c as one writer and one reader whose steps interleave freely.
 * The writer copies bytes one at a time and only then moves `head`; the reader copies bytes out one at a time and
 * only then moves `tail`. Each samples the other's index once, at the start, and goes on with that old value.
 * A prefix width of 0 makes the stream buffer; a positive width makes the message buffer with that length type.
 */
module StreamBuffer {
  import opened Arithmetic
  import opened MessageLength

  datatype Writer =
    | Ready
    | Sampled(space: nat)
    | Writing(payload: seq<byte>, copied: nat, message: seq<byte>)

  datatype Reader =
    | Resting
    | ReadingLength(available: nat, room: nat, prefix: seq<byte>)
    | ReadingData(prefix: seq<byte>, count: nat, out: seq<byte>)

  /** The last four fields are histories: all bytes and messages ever published, and ever taken out. */
  datatype Buffer = Buffer(
    length: nat, width: nat, store: seq<byte>, head: nat, tail: nat,
    writer: Writer, reader: Reader,
    sent: seq<byte>, received: seq<byte>,
    sentMessages: seq<seq<byte>>, receivedMessages: seq<seq<byte>>)
  {
    ghost predicate WellFormed() {
      && 2 <= length
      && |store| == length
      && head < length
      && tail < length
      && (writer.Sampled? ==> writer.space < length)
      && (writer.Writing? ==> |writer.payload| == width + |writer.message|)
      && (writer.Writing? ==> writer.copied <= |writer.payload| < length)
      && (reader.ReadingLength? ==> |reader.prefix| < width < reader.available < length)
      && (reader.ReadingData? ==> |reader.out| <= reader.count && |reader.prefix| + reader.count < length)
    }
  }

  datatype Action =
    | SampleSpace
    | StartSend(data: seq<byte>)
    | CopyIn
    | Publish
    | StartReceive(room: nat)
    | CopyOut
    | EndReceive

  function NextIndex(index: nat, count: nat, length: nat): nat {
    if index + count >= length then index + count - length else index + count
  }

  /** The two distance computations, in a size type with `range` values. */
  function BytesInBuffer(head: nat, tail: nat, length: nat, range: nat): nat
    requires range > 0
  {
    var count := (length + head - tail) % range;
    if count >= length then count - length else count
  }

  function SpacesAvailable(head: nat, tail: nat, length: nat, range: nat): nat
    requires range > 0
  {
    var space := ((length + tail - head) % range - 1) % range;
    if space >= length then space - length else space
  }

  /** Both distances are the true ones exactly while their intermediate value fits the size type. */
  lemma DistancesExact(h: nat, t: nat, length: nat, range: nat)
    requires t <= h < t + length
    requires 0 < length < range
    ensures var head, tail := h % length, t % length;
            && (BytesInBuffer(head, tail, length, range) == h - t <==> length + head - tail < range)
            && (SpacesAvailable(head, tail, length, range) == length - 1 - (h - t) <==> length + tail - head <= range)
  {
    DistanceModulo(h, t, length);
    BytesExact(h % length, t % length, length, range);
    SpacesExact(h % length, t % length, length, range);
  }

  function Distance(head: nat, tail: nat, length: nat): nat
    requires head < length && tail < length
  {
    if head >= tail then head - tail else length + head - tail
  }

  lemma BytesExact(head: nat, tail: nat, length: nat, range: nat)
    requires head < length && tail < length < range
    ensures BytesInBuffer(head, tail, length, range) == Distance(head, tail, length) <==> length + head - tail < range
  {
    WrapOnce(length + head - tail, range);
  }

  lemma SpacesExact(head: nat, tail: nat, length: nat, range: nat)
    requires head < length && tail < length < range
    ensures SpacesAvailable(head, tail, length, range) == length - 1 - Distance(head, tail, length)
            <==> length + tail - head <= range
  {
    var x := length + tail - head;
    WrapOnce(x, range);
    if x == range {
      DivModUnique(-1, range, -1, range - 1);
    } else {
      WrapOnce(if x < range then x - 1 else x - range - 1, range);
    }
  }

  lemma WrapOnce(x: nat, range: nat)
    requires 0 < range && x < 2 * range
    ensures x % range == if x < range then x else x - range
  {
    DivModUnique(x, range, if x < range then 0 else 1, if x < range then x else x - range);
  }

  lemma DistanceModulo(h: nat, t: nat, length: nat)
    requires t <= h < t + length
    ensures h - t == Distance(h % length, t % length, length)
  {
    var q, tail := t / length, t % length;
    var d := h - t;
    if tail + d < length {
      DivModUnique(h, length, q, tail + d);
    } else {
      DivModUnique(h, length, q + 1, tail + d - length);
    }
  }

  /** Bytes held and spaces left always make up the length less one. */
  lemma BytesAndSpaces(head: nat, tail: nat, length: nat, range: nat)
    requires head < length && tail < length && 2 * length <= range
    ensures BytesInBuffer(head, tail, length, range) + SpacesAvailable(head, tail, length, range) == length - 1
  {
    BytesExact(head, tail, length, range);
    SpacesExact(head, tail, length, range);
  }

  function Bytes(b: Buffer): nat
    requires b.WellFormed()
  {
    Distance(b.head, b.tail, b.length)
  }

  function Spaces(b: Buffer): nat
    requires b.WellFormed()
  {
    b.length - 1 - Distance(b.head, b.tail, b.length)
  }

  function Min(a: nat, b: nat): nat { if a <= b then a else b }

  /** What the sender decides to write: a whole frame or nothing, or as much of a stream as fits. */
  function BeginWriting(data: seq<byte>, space: nat, width: nat): Writer {
    if width > 0 then
      if space >= |data| + width then Writing(Frame(data, width), 0, data) else Ready
    else
      var part := data[..Min(|data|, space)];
      Writing(part, 0, part)
  }

  /** What the receiver takes after the prefix: the next message if it fits the caller's room, otherwise nothing. */
  function NextCount(prefix: seq<byte>, room: nat, available: nat): nat
    requires |prefix| <= available
  {
    var next := Decode(prefix);
    Min(if next > room then 0 else next, available - |prefix|)
  }

  function BeginReading(available: nat, room: nat, width: nat): Reader {
    if available <= width then Resting
    else if width > 0 then ReadingLength(available, room, [])
    else ReadingData([], Min(room, available), [])
  }

  function NextReader(reader: Reader, value: byte, width: nat): Reader
    requires reader.ReadingLength? ==> |reader.prefix| < width < reader.available
  {
    match reader
    case Resting => reader
    case ReadingLength(available, room, prefix) =>
      var longer := prefix + [value];
      if |longer| < width then ReadingLength(available, room, longer)
      else ReadingData(longer, NextCount(longer, room, available), [])
    case ReadingData(prefix, count, out) => if |out| < count then ReadingData(prefix, count, out + [value]) else reader
  }

  /** How far the reader has come since it sampled. */
  function Offset(reader: Reader): nat {
    match reader
    case Resting => 0
    case ReadingLength(_, _, prefix) => |prefix|
    case ReadingData(prefix, _, out) => |prefix| + |out|
  }

  function WriterStep(b: Buffer, action: Action): (b': Buffer)
    requires b.WellFormed()
    ensures b'.WellFormed()
    ensures b'.length == b.length && b'.width == b.width
  {
    match action
    case SampleSpace => if b.writer.Writing? then b else b.(writer := Sampled(Spaces(b)))
    case StartSend(data) =>
      if b.writer.Sampled? then b.(writer := BeginWriting(data, b.writer.space, b.width)) else b
    case CopyIn =>
      if b.writer.Writing? && b.writer.copied < |b.writer.payload| then
        b.(store := b.store[NextIndex(b.head, b.writer.copied, b.length) := b.writer.payload[b.writer.copied]],
           writer := b.writer.(copied := b.writer.copied + 1))
      else b
    case Publish =>
      if !b.writer.Writing? || b.writer.copied < |b.writer.payload| then b
      else if b.writer.message == [] then b.(writer := Ready)
      else
        b.(head := NextIndex(NextIndex(b.head, b.width, b.length), |b.writer.message|, b.length),
           sent := b.sent + b.writer.payload,
           sentMessages := b.sentMessages + [b.writer.message],
           writer := Ready)
    case _ => b
  }

  function ReaderStep(b: Buffer, action: Action): (b': Buffer)
    requires b.WellFormed()
    ensures b'.WellFormed()
    ensures b'.length == b.length && b'.width == b.width
  {
    match action
    case StartReceive(room) =>
      if b.reader.Resting? then b.(reader := BeginReading(Bytes(b), room, b.width)) else b
    case CopyOut =>
      if b.reader.Resting? then b
      else b.(reader := NextReader(b.reader, b.store[NextIndex(b.tail, Offset(b.reader), b.length)], b.width))
    case EndReceive =>
      if !b.reader.ReadingData? || |b.reader.out| < b.reader.count then b
      else if b.reader.count == 0 then b.(reader := Resting)
      else
        b.(tail := NextIndex(NextIndex(b.tail, |b.reader.prefix|, b.length), b.reader.count, b.length),
           received := b.received + b.reader.prefix + b.reader.out,
           receivedMessages := b.receivedMessages + [b.reader.out],
           reader := Resting)
    case _ => b
  }

  /** One step of one side; a step that its side is not ready for does nothing. */
  function Step(b: Buffer, action: Action): (b': Buffer)
    requires b.WellFormed()
    ensures b'.WellFormed()
    ensures b'.length == b.length && b'.width == b.width
  {
    if action.StartReceive? || action.CopyOut? || action.EndReceive? then ReaderStep(b, action)
    else WriterStep(b, action)
  }

  function Run(b: Buffer, actions: seq<Action>): (b': Buffer)
    requires b.WellFormed()
    ensures b'.WellFormed()
    ensures b'.length == b.length && b'.width == b.width
    decreases |actions|
  {
    if actions == [] then b else Run(Step(b, actions[0]), actions[1..])
  }

  /** A buffer as created: one more byte than the caller asked for. */
  ghost predicate Fresh(b: Buffer) {
    && b.WellFormed()
    && b.head == 0 && b.tail == 0
    && b.writer == Ready && b.reader == Resting
    && b.sent == [] && b.received == []
    && b.sentMessages == [] && b.receivedMessages == []
  }
}
