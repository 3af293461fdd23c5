/** The circular doubly linked list of list.c and list.h, updated in place. Every operation is proved against the
    function of `KernelList.KList` with the same name. */
module PointerList {
  import opened KernelList

  class ListItem {
    var value: nat
    var next: ListItem
    var previous: ListItem
    var container: List?

    /** An item that is in no list. The links are meaningless until it is inserted. */
    constructor (value: nat)
      ensures this.value == value && container == null
    {
      this.value := value;
      next, previous, container := this, this, null;
    }
  }

  /** The items of `ring`, all different, are linked to a circle in both directions, except that nothing is said about
      the two links between `ring[gap]` and its successor. There is no exception if `gap` is no place of the ring. */
  ghost predicate LinkedBut(ring: seq<ListItem>, gap: int)
    reads ring
  {
    Distinct(ring) && Forward(ring, gap) && Backward(ring, gap)
  }

  ghost predicate Forward(ring: seq<ListItem>, gap: int)
    reads ring
  {
    && (forall k {:trigger ring[k].next} :: 0 <= k < |ring| - 1 && k != gap ==> ring[k].next == ring[k + 1])
    && (|ring| > 0 && |ring| != gap + 1 ==> ring[|ring| - 1].next == ring[0])
  }

  ghost predicate Backward(ring: seq<ListItem>, gap: int)
    reads ring
  {
    && (forall k {:trigger ring[k].previous} :: 0 < k < |ring| && k - 1 != gap ==> ring[k].previous == ring[k - 1])
    && (|ring| > 0 && |ring| != gap + 1 ==> ring[0].previous == ring[|ring| - 1])
  }

  ghost predicate Linked(ring: seq<ListItem>)
    reads ring
  {
    LinkedBut(ring, -1)
  }

  function Inserted<T>(ring: seq<T>, q: nat, item: T): seq<T>
    requires q < |ring|
  {
    ring[..q + 1] + [item] + ring[q + 1..]
  }

  function Removed<T>(ring: seq<T>, q: nat): seq<T>
    requires 0 < q < |ring|
  {
    ring[..q] + ring[q + 1..]
  }

  /** The four link writes both insertions consist of: `item` goes between `cursor` and its successor. */
  method Link(item: ListItem, cursor: ListItem, ghost ring: seq<ListItem>, ghost q: nat)
    requires Linked(ring) && item !in ring && q < |ring| && cursor == ring[q]
    modifies ring`next, ring`previous, item`next, item`previous
    ensures Linked(Inserted(ring, q, item))
  {
    item.next := cursor.next;
    item.next.previous := item;
    item.previous := cursor;
    cursor.next := item;
    assert Forward(ring, q);
    assert Backward(ring, q);
    Spliced(ring, q, item);
  }

  lemma Spliced(ring: seq<ListItem>, q: nat, item: ListItem)
    requires q < |ring| && item !in ring && LinkedBut(ring, q)
    requires item.next == if q + 1 < |ring| then ring[q + 1] else ring[0]
    requires item.previous == ring[q] && ring[q].next == item && item.next.previous == item
    ensures Linked(Inserted(ring, q, item))
  {
  }

  /** The two link writes of a removal. */
  method Unlink(item: ListItem, ghost ring: seq<ListItem>, ghost q: nat)
    requires Linked(ring) && 0 < q < |ring| && item == ring[q]
    modifies ring`next, ring`previous
    ensures Linked(Removed(ring, q))
    ensures item.previous == ring[q - 1]
  {
    item.next.previous := item.previous;
    item.previous.next := item.next;
    assert Forward(Removed(ring, q), q - 1);
    assert Backward(Removed(ring, q), q - 1);
    assert item.previous == ring[q - 1];
  }

  /** The list that a ring and a place in it stand for: the ring's first element is the end marker. */
  function AsList<T>(ring: seq<T>, place: int): (l: KList<T>)
    requires |ring| > 0
  {
    KList(ring[1..], place - 1)
  }

  lemma InsertedAsList<T>(ring: seq<T>, place: nat, q: nat, item: T)
    requires place < |ring| && q < |ring|
    ensures AsList(Inserted(ring, q, item), if q < place then place + 1 else place)
         == AsList(ring, place).InsertAt(q, item)
    ensures place == 0 && q == |ring| - 1 ==>
              AsList(Inserted(ring, q, item), 0) == AsList(ring, place).InsertEnd(item)
    ensures place == q + 1 ==> AsList(Inserted(ring, q, item), place + 1) == AsList(ring, place).InsertEnd(item)
  {
    var longer := Inserted(ring, q, item);
    assert longer[1..] == ring[1..][..q] + [item] + ring[1..][q..];
    assert q == |ring| - 1 ==> longer[1..] == ring[1..] + [item];
  }

  lemma RemovedAsList<T>(ring: seq<T>, place: nat, q: nat)
    requires place < |ring| && 0 < q < |ring|
    ensures AsList(Removed(ring, q), if q <= place then place - 1 else place) == AsList(ring, place).RemoveAt(q - 1)
  {
    assert Removed(ring, q)[1..] == ring[1..][..q - 1] + ring[1..][q..];
  }

  class List {
    var numberOfItems: nat
    var index: ListItem
    const end: ListItem

    /** portMAX_DELAY: the value the end marker carries, and the largest an item can have */
    const maxDelay: nat

    /** The end marker and then the items, in list order; and the walking index as a place in the ring. */
    ghost var ring: seq<ListItem>
    ghost var place: nat

    ghost predicate Valid()
      reads this, end, ring
    {
      && |ring| == numberOfItems + 1 && ring[0] == end
      && place < |ring| && index == ring[place]
      && end.value == maxDelay
      && Linked(ring)
      && (forall k :: 0 < k < |ring| ==> ring[k].container == this && ring[k].value <= maxDelay)
    }

    ghost function View(): (l: KList<ListItem>)
      requires |ring| > 0
      reads this
    {
      AsList(ring, place)
    }

    ghost function Values(): (v: seq<nat>)
      requires |ring| > 0
      reads this, ring
    {
      seq(|ring| - 1, k requires 0 <= k < |ring| - 1 reads this, ring => ring[k + 1].value)
    }

    /** vListInitialise */
    constructor (maxDelay: nat)
      ensures Valid() && View() == KList([], -1) && fresh(end) && this.maxDelay == maxDelay
    {
      this.maxDelay := maxDelay;
      var marker := new ListItem(maxDelay);
      index := marker;
      end := marker;
      numberOfItems, ring, place := 0, [marker], 0;
      new;
      end.next := end;
      end.previous := end;
    }

    /** vListInsertEnd and listINSERT_END */
    method InsertEnd(item: ListItem)
      requires Valid() && item !in ring && item.value <= maxDelay
      modifies this, ring`next, ring`previous, item`next, item`previous, item`container
      ensures Valid() && View() == old(View()).InsertEnd(item)
    {
      hide Inserted, AsList;
      ghost var q := if place == 0 then |ring| - 1 else place - 1;
      InsertedAsList(ring, place, q, item);
      Link(item, index.previous, ring, q);
      Adopt(item, q);
    }

    /** The search of vListInsert, which ends at the end marker at the latest */
    method FindPlace(value: nat) returns (cursor: ListItem, ghost q: nat)
      requires Valid() && value <= maxDelay
      ensures q < |ring| && cursor == ring[q] && q == InsertPosition(Values(), value)
    {
      q := 0;
      if value == maxDelay {
        cursor := end.previous;
        q := |ring| - 1;
      } else {
        cursor := end;
        while cursor.next.value <= value
          invariant 0 <= q < |ring| && cursor == ring[q]
          invariant forall k :: 0 < k <= q ==> ring[k].value <= value
          decreases |ring| - q
        {
          cursor := cursor.next;
          q := q + 1;
        }
      }
      InsertPositionUnique(Values(), value, q);
    }

    /** vListInsert */
    method Insert(item: ListItem)
      requires Valid() && item !in ring && item.value <= maxDelay
      modifies this, ring`next, ring`previous, item`next, item`previous, item`container
      ensures Valid() && View() == old(View().InsertAt(InsertPosition(Values(), item.value), item))
    {
      hide InsertPosition, Linked, Inserted, AsList;
      var cursor, q := FindPlace(item.value);
      InsertedAsList(ring, place, q, item);
      Link(item, cursor, ring, q);
      Adopt(item, q);
    }

    /** The bookkeeping that ends both insertions: `item` has been linked in behind place `q`. */
    method Adopt(item: ListItem, ghost q: nat)
      requires |ring| == numberOfItems + 1 && ring[0] == end && place < |ring| && index == ring[place]
      requires end.value == maxDelay && item !in ring && item.value <= maxDelay && q < |ring|
      requires Linked(Inserted(ring, q, item))
      requires forall k :: 0 < k < |ring| ==> ring[k].container == this && ring[k].value <= maxDelay
      modifies this, item`container
      ensures Valid() && ring == Inserted(old(ring), q, item)
      ensures place == if q < old(place) then old(place) + 1 else old(place)
    {
      item.container := this;
      numberOfItems := numberOfItems + 1;
      ring := Inserted(ring, q, item);
      place := if q < place then place + 1 else place;
    }

    /** uxListRemove and listREMOVE_ITEM, on the list that `item.container` names. `q` is the item's place. */
    method Remove(item: ListItem, ghost q: nat) returns (left: nat)
      requires Valid() && 0 < q < |ring| && ring[q] == item
      modifies this, ring`next, ring`previous, item`container
      ensures Valid() && View() == old(View()).RemoveAt(q - 1)
      ensures item.container == null && left == |ring| - 1
    {
      RemovedAsList(ring, place, q);
      Unlink(item, ring, q);
      Release(item, q);
      left := numberOfItems;
    }

    /** The bookkeeping that ends a removal: `item`, at place `q`, has been linked out. */
    method Release(item: ListItem, ghost q: nat)
      requires |ring| == numberOfItems + 1 && ring[0] == end && place < |ring| && index == ring[place]
      requires end.value == maxDelay && 0 < q < |ring| && ring[q] == item && item.previous == ring[q - 1]
      requires Distinct(ring) && Linked(Removed(ring, q))
      requires forall k :: 0 < k < |ring| ==> ring[k].container == this && ring[k].value <= maxDelay
      modifies this, item`container
      ensures Valid() && ring == Removed(old(ring), q)
      ensures place == if q <= old(place) then old(place) - 1 else old(place)
      ensures item.container == null
    {
      if index == item {
        index := item.previous;
      }
      item.container := null;
      numberOfItems := numberOfItems - 1;
      ring := Removed(ring, q);
      place := if q <= place then place - 1 else place;
    }

    /** listGET_OWNER_OF_NEXT_ENTRY on a list that has items: the item whose owner is returned */
    method NextEntry() returns (item: ListItem)
      requires Valid() && |ring| > 1
      modifies this`index, this`place
      ensures Valid() && View() == old(View()).Next()
      ensures place > 0 && item == ring[place]
    {
      index := index.next;
      place := if place + 1 < |ring| then place + 1 else 0;
      if index == end {
        index := index.next;
        place := 1;
      }
      item := index;
    }

    /** listGET_OWNER_OF_HEAD_ENTRY on a list that has items */
    method HeadEntry() returns (item: ListItem)
      requires Valid() && |ring| > 1
      ensures item == View().items[0]
    {
      item := end.next;
    }
  }
}
