/** The byte storage of a queue: a ring of equal slots, with a write offset at the first free slot and a read offset one
    slot behind the oldest item. For every sequence of operations it is a bounded double-ended queue of items. */
module QueueRing {
  import opened Arithmetic

  type Item = seq<byte>

  datatype Position = Back | Front | Overwrite

  datatype Operation = Send(item: Item, position: Position) | Receive | Peek

  datatype Result = Sent | Full | Empty | Got(item: Item)

  // ----- the reference: a bounded double-ended queue

  function ItemsAfter(items: seq<Item>, length: nat, size: nat, op: Operation): seq<Item> {
    match op
    case Send(item, Back) => if |items| < length then items + [item] else items
    case Send(item, Front) => if |items| < length then [item] + items else items
    case Send(item, Overwrite) => if size > 0 then [item] else items + [item]
    case Receive => if items == [] then [] else items[1..]
    case Peek => items
  }

  function ResultOf(items: seq<Item>, length: nat, op: Operation): Result {
    match op
    case Send(_, position) => if |items| < length || position == Overwrite then Sent else Full
    case _ => if items == [] then Empty else Got(items[0])
  }

  /** What the callers must keep to: items of the queue's size, and overwriting only in queues of length one. */
  predicate Allowed(op: Operation, length: nat, size: nat) {
    op.Send? ==> |op.item| == size && (op.position == Overwrite ==> length == 1)
  }

  function AllItemsAfter(items: seq<Item>, length: nat, size: nat, ops: seq<Operation>): seq<Item>
    decreases |ops|
  {
    if ops == [] then items
    else ItemsAfter(AllItemsAfter(items, length, size, ops[..|ops| - 1]), length, size, ops[|ops| - 1])
  }

  function ResultsOf(items: seq<Item>, length: nat, size: nat, ops: seq<Operation>): (r: seq<Result>)
    ensures |r| == |ops|
    decreases |ops|
  {
    if ops == [] then []
    else
      var before := ops[..|ops| - 1];
      ResultsOf(items, length, size, before)
      + [ResultOf(AllItemsAfter(items, length, size, before), length, ops[|ops| - 1])]
  }

  /** Overwriting a full queue whose items have no bytes, such as a semaphore */
  predicate Overfills(items: seq<Item>, length: nat, size: nat, op: Operation) {
    op.Send? && op.position == Overwrite && size == 0 && |items| >= length
  }

  /** After each of the operations, the queue holds no more items than it has places. */
  ghost predicate AlwaysBounded(items: seq<Item>, length: nat, size: nat, ops: seq<Operation>)
    decreases |ops|
  {
    && |AllItemsAfter(items, length, size, ops)| <= length
    && (ops == [] || AlwaysBounded(items, length, size, ops[..|ops| - 1]))
  }

  ghost predicate NeverOverfills(items: seq<Item>, length: nat, size: nat, ops: seq<Operation>)
    decreases |ops|
  {
    ops == [] ||
    var before := ops[..|ops| - 1];
    && !Overfills(AllItemsAfter(items, length, size, before), length, size, ops[|ops| - 1])
    && NeverOverfills(items, length, size, before)
  }

  /** Over any sequence of operations, the count of waiting messages passes the length of the queue in one way only: a full
      queue whose items have no bytes is overwritten. */
  lemma {:induction false} BoundedExactly(items: seq<Item>, length: nat, size: nat, ops: seq<Operation>)
    requires |items| <= length && length > 0 && forall op <- ops :: Allowed(op, length, size)
    ensures AlwaysBounded(items, length, size, ops) <==> NeverOverfills(items, length, size, ops)
    ensures size > 0 ==> AlwaysBounded(items, length, size, ops)
    decreases |ops|
  {
    hide ItemsAfter, Allowed;
    if ops != [] {
      var before, op := ops[..|ops| - 1], ops[|ops| - 1];
      assert op in ops;
      BoundedExactly(items, length, size, before);
      BoundedStep(AllItemsAfter(items, length, size, before), length, size, op);
    }
  }

  lemma BoundedStep(items: seq<Item>, length: nat, size: nat, op: Operation)
    requires length > 0 && Allowed(op, length, size)
    ensures |items| <= length ==>
              (|ItemsAfter(items, length, size, op)| <= length <==> !Overfills(items, length, size, op))
  {
  }

  /** Items leave in the order of the queue: what a send to one end put in comes out after, or before, the rest. */
  lemma {:induction false} ReceiveAll(items: seq<Item>, length: nat, size: nat, n: nat)
    requires n <= |items|
    ensures AllItemsAfter(items, length, size, seq(n, _ => Receive)) == items[n..]
    ensures ResultsOf(items, length, size, seq(n, _ => Receive)) == seq(n, i requires 0 <= i < n => Got(items[i]))
  {
    if n > 0 {
      var ops := seq(n, _ => Receive);
      assert ops[..n - 1] == seq(n - 1, _ => Receive);
      ReceiveAll(items, length, size, n - 1);
      assert items[n - 1..][1..] == items[n..];
    }
  }

  // ----- slots

  lemma SlotsApart(i: nat, j: nat, size: nat)
    requires i < j
    ensures i * size + size <= j * size
  {
    MulMono(i + 1, j, size);
  }

  function Slot(store: seq<byte>, k: nat, size: nat): Item {
    if k * size + size <= |store| then store[k * size..k * size + size] else []
  }

  /** The slot of the i-th item after slot `read`. */
  function At(read: nat, i: nat, length: nat): (k: nat)
    requires length > 0
    ensures k < length
  {
    (read + 1 + i) % length
  }

  function ItemsFrom(store: seq<byte>, size: nat, length: nat, read: nat, n: nat): (items: seq<Item>)
    requires length > 0
    ensures |items| == n
  {
    seq(n, i requires 0 <= i < n => Slot(store, At(read, i, length), size))
  }

  /** Only slot k has changed, to the item. */
  ghost predicate Written(store: seq<byte>, store': seq<byte>, size: nat, length: nat, k: nat, item: Item) {
    forall j :: 0 <= j < length ==> Slot(store', j, size) == if j == k then item else Slot(store, j, size)
  }

  lemma AppendItem(store: seq<byte>, store': seq<byte>, size: nat, length: nat, read: nat, n: nat, item: Item)
    requires n < length
    requires Written(store, store', size, length, At(read, n, length), item)
    ensures ItemsFrom(store', size, length, read, n + 1) == ItemsFrom(store, size, length, read, n) + [item]
  {
    hide Slot, At;
    forall i | 0 <= i < n ensures At(read, i, length) != At(read, n, length) {
      SlotsWrap(read, i, n, length);
    }
  }

  lemma PrependItem(store: seq<byte>, store': seq<byte>, size: nat, length: nat, read: nat, n: nat, item: Item)
    requires n < length && read < length
    requires Written(store, store', size, length, read, item)
    ensures ItemsFrom(store', size, length, Before(read, length), n + 1) == [item] + ItemsFrom(store, size, length, read, n)
  {
    BackOne(read, 0, length);
    hide Slot, At, Before;
    forall i | 0 <= i < n
      ensures At(read, i, length) != read && At(Before(read, length), i + 1, length) == At(read, i, length)
    {
      SlotsWrap(Before(read, length), 0, i + 1, length);
      BackOne(read, i + 1, length);
    }
  }

  function Before(k: nat, length: nat): nat
    requires k < length
  {
    if k == 0 then length - 1 else k - 1
  }

  lemma BackOne(read: nat, i: nat, length: nat)
    requires read < length
    ensures At(Before(read, length), i, length) == (read + i) % length
    ensures i == 0 ==> At(Before(read, length), i, length) == read
    ensures i > 0 ==> At(Before(read, length), i, length) == At(read, i - 1, length)
  {
    if read == 0 {
      ModPlus(i, length);
    }
    if i == 0 {
      DivModUnique(read, length, 0, read);
    }
  }

  lemma RemoveItem(store: seq<byte>, size: nat, length: nat, read: nat, n: nat)
    requires n > 0 && length > 0
    ensures ItemsFrom(store, size, length, read, n)
         == [Slot(store, At(read, 0, length), size)] + ItemsFrom(store, size, length, At(read, 0, length), n - 1)
  {
    forall i | 0 <= i < n - 1 ensures At(At(read, 0, length), i, length) == At(read, i + 1, length) {
      ModOfSum(read + 1, 1 + i, length);
    }
    hide Slot, At;
  }

  lemma WriteSlot(store: seq<byte>, store': seq<byte>, k: nat, size: nat, item: Item, length: nat)
    requires |store| == |store'| == length * size && k < length && |item| == size
    requires k * size + size <= |store|
    requires store' == store[..k * size] + item + store[k * size + size..]
    ensures Written(store, store', size, length, k, item)
  {
    hide Slot;
    forall j | 0 <= j < length
      ensures Slot(store', j, size) == if j == k then item else Slot(store, j, size)
    {
      WriteOneSlot(store, store', k, size, item, length, j);
    }
  }

  lemma WriteOneSlot(store: seq<byte>, store': seq<byte>, k: nat, size: nat, item: Item, length: nat, j: nat)
    requires |store| == |store'| == length * size && k < length && j < length && |item| == size
    requires k * size + size <= |store|
    requires store' == store[..k * size] + item + store[k * size + size..]
    ensures Slot(store', j, size) == if j == k then item else Slot(store, j, size)
  {
    SlotsApart(j, length, size);
    if j < k {
      SlotsApart(j, k, size);
    } else if k < j {
      SlotsApart(k, j, size);
    }
    SliceAfterWrite(store, k * size, item, j * size);
  }

  lemma SliceAfterWrite(store: seq<byte>, at: nat, item: Item, from: nat)
    requires at + |item| <= |store| && from + |item| <= |store|
    requires from + |item| <= at || from == at || at + |item| <= from
    ensures var after := store[..at] + item + store[at + |item|..];
            after[from..from + |item|] == if from == at then item else store[from..from + |item|]
  {
  }

  /** One slot on from the last is the first, and one back from the first is the last. */
  lemma NextSlot(k: nat, length: nat, size: nat)
    requires k < length && size > 0
    ensures k * size + size >= length * size <==> k + 1 == length
    ensures (k + 1) % length == if k + 1 == length then 0 else k + 1
    ensures k * size + size == (k + 1) * size
    ensures k * size - size < 0 <==> k == 0
  {
    if k + 1 < length {
      SlotsApart(k + 1, length, size);
      DivModUnique(k + 1, length, 0, k + 1);
    } else {
      DivModUnique(k + 1, length, 1, 0);
    }
    if k > 0 {
      SlotsApart(k - 1, k, size);
    }
  }

  lemma SlotsWrap(read: nat, i: nat, j: nat, length: nat)
    requires i < j < i + length
    ensures At(read, i, length) != At(read, j, length)
  {
    var a, b := read + 1 + i, read + 1 + j;
    if a % length == b % length {
      var d := b / length - a / length;
      assert d * length == j - i;
      if d >= 1 { MulMono(1, d, length); } else { MulMono(d, 0, length); }
    }
  }

  class Queue {
    const length: nat
    const itemSize: nat
    const storage: array<byte>
    /** pcWriteTo and pcReadFrom, as offsets from pcHead */
    var writeTo: nat
    var readFrom: nat
    var messagesWaiting: nat
    /** The slots that the offsets point to. */
    ghost var write: nat
    ghost var read: nat

    ghost predicate Valid()
      reads this, storage
    {
      && length > 0
      && storage.Length == length * itemSize
      && write < length && read < length
      && writeTo == write * itemSize
      && readFrom == read * itemSize
      && (itemSize > 0 ==> messagesWaiting <= length && write == At(read, messagesWaiting, length))
    }

    ghost function Contents(): (items: seq<Item>)
      requires length > 0
      reads this, storage
      ensures |items| == messagesWaiting
    {
      ItemsFrom(storage[..], itemSize, length, read, messagesWaiting)
    }

    /** xQueueGenericReset of a new queue */
    constructor (length: nat, itemSize: nat)
      requires length > 0
      ensures Valid() && Contents() == []
      ensures this.length == length && this.itemSize == itemSize
    {
      this.length, this.itemSize := length, itemSize;
      storage := new byte[length * itemSize];
      writeTo, messagesWaiting := 0, 0;
      readFrom := (length - 1) * itemSize;
      write, read := 0, length - 1;
      new;
      DivModUnique(length, length, 1, 0);
    }

    method PutSlot(item: Item, at: nat, ghost k: nat)
      requires Valid() && |item| == itemSize && k < length && at == k * itemSize
      modifies storage
      ensures Written(old(storage[..]), storage[..], itemSize, length, k, item)
    {
      SlotsApart(k, length, itemSize);
      ghost var before := storage[..];
      forall i | 0 <= i < |item| {
        storage[at + i] := item[i];
      }
      assert storage[..] == before[..at] + item + before[at + itemSize..];
      WriteSlot(before, storage[..], k, itemSize, item, length);
    }

    method WriteBack(item: Item)
      requires Valid() && |item| == itemSize > 0 && messagesWaiting < length
      modifies this`writeTo, this`write, storage
      ensures write < length && writeTo == write * itemSize && write == At(read, messagesWaiting + 1, length)
      ensures ItemsFrom(storage[..], itemSize, length, read, messagesWaiting + 1) == old(Contents()) + [item]
    {
      hide Slot, At, ItemsFrom, Written;
      ghost var before := storage[..];
      PutSlot(item, writeTo, write);
      AppendItem(before, storage[..], itemSize, length, read, messagesWaiting, item);
      NextSlot(write, length, itemSize);
      NextAt(read, messagesWaiting, length);
      writeTo := writeTo + itemSize;
      if writeTo >= storage.Length {
        writeTo := 0;
      }
      write := (write + 1) % length;
    }

    method WriteFront(item: Item, ghost n: nat)
      requires Valid() && |item| == itemSize > 0 && n < length
      modifies this`readFrom, this`read, storage
      ensures read < length && readFrom == read * itemSize && read == Before(old(read), length)
      ensures ItemsFrom(storage[..], itemSize, length, read, n + 1)
           == [item] + old(ItemsFrom(storage[..], itemSize, length, read, n))
    {
      hide Slot, At, ItemsFrom, Written;
      ghost var before := storage[..];
      PutSlot(item, readFrom, read);
      PrependItem(before, storage[..], itemSize, length, read, n, item);
      NextSlot(read, length, itemSize);
      LastSlot(length, itemSize);
      FirstSlot(read, itemSize);
      var back := readFrom - itemSize;
      if back < 0 {
        back := storage.Length - itemSize;
      }
      readFrom := back;
      read := Before(read, length);
    }

    /** prvCopyDataToQueue */
    method CopyDataToQueue(item: Item, position: Position)
      requires Valid() && |item| == itemSize
      requires messagesWaiting < length || position == Overwrite
      requires position == Overwrite ==> length == 1
      modifies this`writeTo, this`readFrom, this`messagesWaiting, this`write, this`read, storage
      ensures Valid()
      ensures position == Back ==> Contents() == old(Contents()) + [item]
      ensures position == Front ==> Contents() == [item] + old(Contents())
      ensures position == Overwrite ==> Contents() == (if itemSize > 0 then [] else old(Contents())) + [item]
      ensures Contents() == ItemsAfter(old(Contents()), length, itemSize, Send(item, position))
    {
      hide Slot, At, ItemsFrom;
      ghost var r, n := read, messagesWaiting;
      var waiting := messagesWaiting;
      if itemSize == 0 {
        EmptyItems(storage[..], length, read, n);
        EmptyItems(storage[..], length, read, n + 1);
      } else if position == Back {
        WriteBack(item);
      } else {
        BackOne(read, n + 1, length);
        NoItems(storage[..], itemSize, length, read);
        WriteFront(item, if position == Overwrite then 0 else n);
        if position == Overwrite {
          if waiting > 0 {
            waiting := waiting - 1;
          }
        }
      }
      messagesWaiting := waiting + 1;
    }

    /** prvCopyDataFromQueue */
    method CopyDataFromQueue() returns (item: Item)
      requires Valid() && messagesWaiting > 0
      modifies this`readFrom, this`read
      ensures length > 0 && storage.Length == length * itemSize && read < length && readFrom == read * itemSize
      ensures item == Slot(storage[..], At(old(read), 0, length), itemSize)
      ensures itemSize > 0 ==> read == At(old(read), 0, length)
      ensures itemSize == 0 ==> read == old(read)
    {
      item := [];
      if itemSize != 0 {
        NextSlot(read, length, itemSize);
        readFrom := readFrom + itemSize;
        if readFrom >= storage.Length {
          readFrom := 0;
        }
        read := (read + 1) % length;
        SlotsApart(read, length, itemSize);
        item := storage[readFrom..readFrom + itemSize];
      }
    }

    /** One critical section of xQueueGenericSend, xQueueReceive or xQueuePeek, without the blocking. */
    method Perform(op: Operation) returns (result: Result)
      requires Valid() && Allowed(op, length, itemSize)
      modifies this`writeTo, this`readFrom, this`messagesWaiting, this`write, this`read, storage
      ensures Valid()
      ensures Contents() == ItemsAfter(old(Contents()), length, itemSize, op)
      ensures result == ResultOf(old(Contents()), length, op)
    {
      hide Slot, At, ItemsFrom;
      if op.Send? {
        if messagesWaiting < length || op.position == Overwrite {
          CopyDataToQueue(op.item, op.position);
          result := Sent;
        } else {
          result := Full;
        }
      } else if messagesWaiting > 0 {
        RemoveItem(storage[..], itemSize, length, read, messagesWaiting);
        AfterRemoval(read, messagesWaiting, length);
        EmptyItems(storage[..], length, read, messagesWaiting);
        EmptyItems(storage[..], length, read, messagesWaiting - 1);
        EmptySlot(storage[..], At(read, 0, length));
        ghost var original := read;
        var originalReadPosition := readFrom;
        var item := CopyDataFromQueue();
        result := Got(item);
        if op.Receive? {
          messagesWaiting := messagesWaiting - 1;
        } else {
          readFrom := originalReadPosition;
          read := original;
        }
      } else {
        result := Empty;
      }
    }

    /** Any sequence of operations gives the results, and leaves the contents, that the double-ended queue gives. */
    method PerformAll(ops: seq<Operation>) returns (results: seq<Result>)
      requires Valid() && forall i :: 0 <= i < |ops| ==> Allowed(ops[i], length, itemSize)
      modifies this`writeTo, this`readFrom, this`messagesWaiting, this`write, this`read, storage
      ensures Valid()
      ensures Contents() == AllItemsAfter(old(Contents()), length, itemSize, ops)
      ensures results == ResultsOf(old(Contents()), length, itemSize, ops)
    {
      ghost var items := Contents();
      results := [];
      for n := 0 to |ops|
        invariant Valid()
        invariant Contents() == AllItemsAfter(items, length, itemSize, ops[..n])
        invariant results == ResultsOf(items, length, itemSize, ops[..n])
      {
        hide Slot, At, ItemsFrom, ItemsAfter, ResultOf;
        assert ops[..n + 1][..n] == ops[..n];
        var result := Perform(ops[n]);
        results := results + [result];
      }
      assert ops[..|ops|] == ops;
    }
  }

  lemma AfterRemoval(read: nat, n: nat, length: nat)
    requires length > 0 && n > 0
    ensures At(read, n, length) == At(At(read, 0, length), n - 1, length)
  {
    ModOfSum(read + 1, n, length);
  }

  lemma EmptySlot(store: seq<byte>, k: nat)
    ensures Slot(store, k, 0) == []
  {
  }

  lemma EmptyItems(store: seq<byte>, length: nat, read: nat, n: nat)
    requires length > 0
    ensures ItemsFrom(store, 0, length, read, n) == seq(n, _ => [])
  {
  }

  lemma NextAt(read: nat, n: nat, length: nat)
    requires length > 0
    ensures (At(read, n, length) + 1) % length == At(read, n + 1, length)
  {
    ModOfSum(read + 1 + n, 1, length);
  }

  lemma NoItems(store: seq<byte>, size: nat, length: nat, read: nat)
    requires length > 0
    ensures ItemsFrom(store, size, length, read, 0) == []
  {
  }

  lemma FirstSlot(k: nat, size: nat)
    ensures k > 0 ==> k * size - size == (k - 1) * size
  {
  }

  lemma LastSlot(length: nat, size: nat)
    requires length > 0
    ensures length * size - size == (length - 1) * size
  {
  }
}
