/** What the results of a queue's operations say to its callers, stated by results alone: the contents of the queue do not
    appear. `ResultsOf` is what `QueueRing.Queue.PerformAll` returns. */
module QueueLaws {
  import opened Arithmetic
  import opened QueueRing

  // ----- composing operations

  lemma {:induction false} Composed(items: seq<Item>, length: nat, size: nat, ops: seq<Operation>, more: seq<Operation>)
    ensures AllItemsAfter(items, length, size, ops + more)
         == AllItemsAfter(AllItemsAfter(items, length, size, ops), length, size, more)
    ensures ResultsOf(items, length, size, ops + more)
         == ResultsOf(items, length, size, ops)
            + ResultsOf(AllItemsAfter(items, length, size, ops), length, size, more)
    decreases |more|
  {
    hide ItemsAfter, ResultOf;
    if more == [] {
      assert ops + more == ops;
    } else {
      var last := |more| - 1;
      Composed(items, length, size, ops, more[..last]);
      assert (ops + more)[..|ops + more| - 1] == ops + more[..last];
    }
  }

  lemma One(items: seq<Item>, length: nat, size: nat, op: Operation)
    ensures AllItemsAfter(items, length, size, [op]) == ItemsAfter(items, length, size, op)
    ensures ResultsOf(items, length, size, [op]) == [ResultOf(items, length, op)]
  {
    assert [op][..0] == [];
  }

  /** One operation and then others */
  lemma First(items: seq<Item>, length: nat, size: nat, op: Operation, more: seq<Operation>)
    ensures ResultsOf(items, length, size, [op] + more)
         == [ResultOf(items, length, op)] + ResultsOf(ItemsAfter(items, length, size, op), length, size, more)
  {
    Composed(items, length, size, [op], more);
    One(items, length, size, op);
  }

  /** The results that `more` has once `ops` have been performed */
  function Later(items: seq<Item>, length: nat, size: nat, ops: seq<Operation>, more: seq<Operation>): (r: seq<Result>)
    ensures |r| == |more|
  {
    ResultsOf(items, length, size, ops + more)[|ops|..]
  }

  lemma LaterIs(items: seq<Item>, length: nat, size: nat, ops: seq<Operation>, more: seq<Operation>)
    ensures Later(items, length, size, ops, more)
         == ResultsOf(AllItemsAfter(items, length, size, ops), length, size, more)
  {
    Composed(items, length, size, ops, more);
  }

  // ----- first in, first out

  /** The items that the results report as sent, and as received, in order */
  function SentItems(ops: seq<Operation>, results: seq<Result>): seq<Item>
    requires |results| == |ops|
    decreases |ops|
  {
    if ops == [] then []
    else
      var last := |ops| - 1;
      SentItems(ops[..last], results[..last])
      + if ops[last].Send? && results[last].Sent? then [ops[last].item] else []
  }

  function ReceivedItems(ops: seq<Operation>, results: seq<Result>): seq<Item>
    requires |results| == |ops|
    decreases |ops|
  {
    if ops == [] then []
    else
      var last := |ops| - 1;
      ReceivedItems(ops[..last], results[..last])
      + if ops[last].Receive? && results[last].Got? then [results[last].item] else []
  }

  /** What a queue that is only sent to at the back must answer next, by what has been sent and received so far */
  function Expected(sent: seq<Item>, received: seq<Item>, length: nat, op: Operation): Result {
    if op.Send? then if |sent| < |received| + length then Sent else Full
    else if |received| < |sent| then Got(sent[|received|])
    else Empty
  }

  ghost predicate BackOnly(ops: seq<Operation>) {
    forall op <- ops :: op.Send? ==> op.position == Back
  }

  /** One operation more, from a queue that holds what has been sent and not received */
  lemma FifoStep(length: nat, size: nat, sent: seq<Item>, received: seq<Item>, op: Operation)
    requires received <= sent && |sent| <= |received| + length && (op.Send? ==> op.position == Back)
    ensures var items := sent[|received|..];
            var r := ResultOf(items, length, op);
            var sent', received' := sent + (if op.Send? && r.Sent? then [op.item] else []),
                                    received + (if op.Receive? && r.Got? then [r.item] else []);
            && received' <= sent' && |sent'| <= |received'| + length
            && ItemsAfter(items, length, size, op) == sent'[|received'|..]
  {
    var items := sent[|received|..];
    if op.Send? {
      assert (sent + [op.item])[|received|..] == items + [op.item];
    } else if op.Receive? && items != [] {
      assert sent[|received|] == items[0];
    }
  }

  /** The sequences of items sent and received, one operation on */
  lemma OneMore(ops: seq<Operation>, results: seq<Result>, op: Operation, r: Result)
    requires |ops| == |results|
    ensures SentItems(ops + [op], results + [r])
         == SentItems(ops, results) + (if op.Send? && r.Sent? then [op.item] else [])
    ensures ReceivedItems(ops + [op], results + [r])
         == ReceivedItems(ops, results) + (if op.Receive? && r.Got? then [r.item] else [])
  {
    assert (ops + [op])[..|ops|] == ops && (results + [r])[..|ops|] == results;
  }

  lemma {:induction false} FifoContents(length: nat, size: nat, ops: seq<Operation>)
    requires BackOnly(ops)
    ensures var results := ResultsOf([], length, size, ops);
            var sent, received := SentItems(ops, results), ReceivedItems(ops, results);
            && received <= sent && |sent| <= |received| + length
            && AllItemsAfter([], length, size, ops) == sent[|received|..]
    decreases |ops|
  {
    hide ItemsAfter, ResultOf;
    if ops != [] {
      hide SentItems, ReceivedItems;
      var before, op := ops[..|ops| - 1], ops[|ops| - 1];
      assert op in ops;
      forall o | o in before ensures o in ops {
      }
      FifoContents(length, size, before);
      var results := ResultsOf([], length, size, before);
      FifoStep(length, size, SentItems(before, results), ReceivedItems(before, results), op);
      OneMore(before, results, op, ResultOf(AllItemsAfter([], length, size, before), length, op));
      assert before + [op] == ops;
    }
  }

  /**
   * First in, first out. In every sequence of sends to the back, receives and peeks on a new queue: what has been received
   * is the beginning of what has been sent; a receive or peek gives the first item sent that has not been received; and a
   * send fails exactly if as many items are outstanding as the queue is long.
   */
  lemma FirstInFirstOut(length: nat, size: nat, ops: seq<Operation>, next: Operation)
    requires BackOnly(ops + [next])
    ensures var results := ResultsOf([], length, size, ops);
            var sent, received := SentItems(ops, results), ReceivedItems(ops, results);
            && received <= sent && |sent| <= |received| + length
            && ResultsOf([], length, size, ops + [next]) == results + [Expected(sent, received, length, next)]
  {
    assert next in ops + [next];
    forall op | op in ops ensures op in ops + [next] {
    }
    FifoContents(length, size, ops);
    Composed([], length, size, ops, [next]);
    One(AllItemsAfter([], length, size, ops), length, size, next);
  }

  // ----- the front, the back and overwriting, after any operations whatever

  /** An item that is sent to the front is the next to be received; receiving it leaves all as it was. */
  lemma SentToFront(items: seq<Item>, length: nat, size: nat, ops: seq<Operation>, item: Item, more: seq<Operation>)
    requires Later(items, length, size, ops, [Send(item, Front)]) == [Sent]
    ensures Later(items, length, size, ops, [Send(item, Front), Receive] + more)
         == [Sent, Got(item)] + Later(items, length, size, ops, more)
    ensures Later(items, length, size, ops, [Send(item, Front), Peek]) == [Sent, Got(item)]
  {
    var now := AllItemsAfter(items, length, size, ops);
    LaterIs(items, length, size, ops, [Send(item, Front)]);
    LaterIs(items, length, size, ops, [Send(item, Front), Receive] + more);
    LaterIs(items, length, size, ops, [Send(item, Front), Peek]);
    LaterIs(items, length, size, ops, more);
    hide Later, ResultsOf, AllItemsAfter;
    One(now, length, size, Send(item, Front));
    var added := [item] + now;
    assert [Send(item, Front), Receive] + more == [Send(item, Front)] + ([Receive] + more);
    First(now, length, size, Send(item, Front), [Receive] + more);
    First(added, length, size, Receive, more);
    assert added[1..] == now;
    assert [Send(item, Front), Peek] == [Send(item, Front)] + [Peek];
    First(now, length, size, Send(item, Front), [Peek]);
    One(added, length, size, Peek);
  }

  /** A peek gives what the next receive would, and changes no later result. */
  lemma Peeked(items: seq<Item>, length: nat, size: nat, ops: seq<Operation>, more: seq<Operation>)
    ensures Later(items, length, size, ops, [Peek] + more)
         == Later(items, length, size, ops, [Receive]) + Later(items, length, size, ops, more)
  {
    var now := AllItemsAfter(items, length, size, ops);
    LaterIs(items, length, size, ops, [Peek] + more);
    LaterIs(items, length, size, ops, [Receive]);
    LaterIs(items, length, size, ops, more);
    hide Later, ResultsOf, AllItemsAfter;
    First(now, length, size, Peek, more);
    One(now, length, size, Receive);
  }

  /** An operation that fails, on a full queue or an empty one, changes no later result. */
  lemma FailedChangesNothing(items: seq<Item>, length: nat, size: nat, ops: seq<Operation>, op: Operation,
                             more: seq<Operation>)
    requires var r := Later(items, length, size, ops, [op]); r == [Full] || r == [Empty]
    ensures Later(items, length, size, ops, [op] + more)
         == Later(items, length, size, ops, [op]) + Later(items, length, size, ops, more)
  {
    var now := AllItemsAfter(items, length, size, ops);
    LaterIs(items, length, size, ops, [op]);
    LaterIs(items, length, size, ops, [op] + more);
    LaterIs(items, length, size, ops, more);
    hide Later, ResultsOf, AllItemsAfter;
    One(now, length, size, op);
    First(now, length, size, op, more);
  }

  /** Overwriting always succeeds; the next receive gives the new item, and then the queue is empty. */
  lemma Overwritten(items: seq<Item>, size: nat, ops: seq<Operation>, item: Item)
    requires size > 0
    ensures Later(items, 1, size, ops, [Send(item, Overwrite), Receive, Receive]) == [Sent, Got(item), Empty]
  {
    var now := AllItemsAfter(items, 1, size, ops);
    LaterIs(items, 1, size, ops, [Send(item, Overwrite), Receive, Receive]);
    hide Later, ResultsOf, AllItemsAfter;
    assert [Send(item, Overwrite), Receive, Receive] == [Send(item, Overwrite)] + [Receive, Receive];
    assert [Receive, Receive] == [Receive] + [Receive];
    First(now, 1, size, Send(item, Overwrite), [Receive, Receive]);
    First([item], 1, size, Receive, [Receive]);
    assert [item][1..] == [];
    One([], 1, size, Receive);
  }

  function Receives(n: nat): seq<Operation> { seq(n, _ => Receive) }

  /** What n receives give from a queue with these items */
  lemma {:induction false} ReceivesGive(items: seq<Item>, length: nat, size: nat, n: nat)
    ensures ResultsOf(items, length, size, Receives(n))
         == seq(n, i requires 0 <= i < n => if i < |items| then Got(items[i]) else Empty)
    ensures AllItemsAfter(items, length, size, Receives(n)) == items[if n < |items| then n else |items|..]
  {
    if n > 0 {
      ReceivesGive(items, length, size, n - 1);
      assert Receives(n)[..n - 1] == Receives(n - 1);
    }
  }

  /** An item that is sent to the back comes after all that was there: receives give what they would have given, and the
      first that would have found the queue empty gives the item. */
  lemma SentToBack(items: seq<Item>, length: nat, size: nat, ops: seq<Operation>, item: Item, n: nat)
    requires Later(items, length, size, ops, [Send(item, Back)]) == [Sent]
    ensures var without := Later(items, length, size, ops, Receives(n));
            var with := Later(items, length, size, ops, [Send(item, Back)] + Receives(n));
            && with[0] == Sent
            && forall i :: 0 <= i < n ==>
                 with[i + 1] == if without[i].Got? then without[i]
                                else if i == 0 || without[i - 1].Got? then Got(item)
                                else Empty
  {
    var now := AllItemsAfter(items, length, size, ops);
    LaterIs(items, length, size, ops, [Send(item, Back)]);
    LaterIs(items, length, size, ops, [Send(item, Back)] + Receives(n));
    LaterIs(items, length, size, ops, Receives(n));
    hide Later, ResultsOf, AllItemsAfter;
    One(now, length, size, Send(item, Back));
    First(now, length, size, Send(item, Back), Receives(n));
    ReceivesGive(now, length, size, n);
    ReceivesGive(now + [item], length, size, n);
  }
}
