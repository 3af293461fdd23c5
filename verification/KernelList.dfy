/** The kernel's intrusive list as a value: the items in list order, and the position of the walking index.
    `PointerList.List` proves that the linked structure of list.c computes exactly these functions; the step models of
    the other modules use them directly. */
module KernelList {
  /** `index == -1` is the end marker, any other index is a position in `items`. */
  datatype KList<T> = KList(items: seq<T>, index: int) {

    ghost predicate Valid() {
      -1 <= index < |items|
    }

    /** Resets the walking index to the end marker. */
    function Rewind(): (r: KList<T>)
      ensures r.Valid()
    {
      KList(items, -1)
    }

    /** Steps the walking index, passing over the end marker. */
    function Next(): (r: KList<T>)
      requires Valid()
      ensures r.Valid() && r.items == items
    {
      if items == [] then KList(items, -1)
      else if index + 1 == |items| then KList(items, 0)
      else KList(items, index + 1)
    }

    /** Inserts just before the item the walking index stands on. */
    function InsertEnd(x: T): (r: KList<T>)
      requires Valid()
      ensures r.Valid()
    {
      if index == -1 then KList(items + [x], -1)
      else KList(items[..index] + [x] + items[index..], index + 1)
    }

    /** Inserts at position `p`; the walking index stays on the item it stood on. */
    function InsertAt(p: nat, x: T): (r: KList<T>)
      requires Valid() && p <= |items|
      ensures r.Valid()
    {
      KList(items[..p] + [x] + items[p..], if p <= index then index + 1 else index)
    }

    /** Removes position `p`; an index standing there steps back to the item (or marker) before it. */
    function RemoveAt(p: nat): (r: KList<T>)
      requires Valid() && p < |items|
      ensures r.Valid()
    {
      KList(items[..p] + items[p + 1..], if p <= index then index - 1 else index)
    }
  }

  ghost predicate Distinct<T>(s: seq<T>) {
    forall i, j :: 0 <= i < j < |s| ==> s[i] != s[j]
  }

  ghost predicate Sorted(keys: seq<nat>) {
    forall i, j :: 0 <= i < j < |keys| ==> keys[i] <= keys[j]
  }

  /** A task leaves a waiting list. */
  function RemoveFirst(list: seq<nat>, t: nat): seq<nat> {
    if list == [] then [] else if list[0] == t then list[1..] else [list[0]] + RemoveFirst(list[1..], t)
  }

  /** Where the search loop of an ordered insertion stops: behind the leading keys that are no larger. */
  function InsertPosition(keys: seq<nat>, key: nat): (p: nat)
    ensures p <= |keys|
    ensures forall k :: 0 <= k < p ==> keys[k] <= key
    ensures p < |keys| ==> key < keys[p]
  {
    if keys == [] || key < keys[0] then 0 else 1 + InsertPosition(keys[1..], key)
  }

  /** The three postconditions of `InsertPosition` leave no choice. */
  lemma InsertPositionUnique(keys: seq<nat>, key: nat, p: nat)
    requires p <= |keys|
    requires forall k :: 0 <= k < p ==> keys[k] <= key
    requires p < |keys| ==> key < keys[p]
    ensures p == InsertPosition(keys, key)
  {
  }

  /** Ordered insertion keeps an ordered list ordered, and puts the new item behind every item with the same key. */
  lemma InsertKeepsSortedAndStable(keys: seq<nat>, key: nat)
    requires Sorted(keys)
    ensures var p := InsertPosition(keys, key);
            && Sorted(keys[..p] + [key] + keys[p..])
            && (forall k :: p <= k < |keys| ==> key < keys[k])
  {
    hide InsertPosition;
    var p := InsertPosition(keys, key);
    forall k | p <= k < |keys|
      ensures key < keys[k]
    {
      assert keys[p] <= keys[k];
    }
    SortedConcat(keys[..p], [key]);
    SortedConcat(keys[..p] + [key], keys[p..]);
  }

  lemma SortedConcat(a: seq<nat>, b: seq<nat>)
    requires Sorted(a) && Sorted(b)
    requires forall x <- a, y <- b :: x <= y
    ensures Sorted(a + b)
  {
    forall i, j | 0 <= i < j < |a + b|
      ensures (a + b)[i] <= (a + b)[j]
    {
      if i < |a| <= j {
        assert a[i] in a && b[j - |a|] in b;
      }
    }
  }

  lemma InsertContents<T>(s: seq<T>, p: nat, x: T)
    requires p <= |s|
    ensures forall y :: y in s[..p] + [x] + s[p..] <==> y in s || y == x
    ensures Distinct(s) && x !in s ==> Distinct(s[..p] + [x] + s[p..])
  {
    assert s == s[..p] + s[p..];
  }

  /** Removing the item just inserted brings back the old items and the old walking index, for both insertions. */
  lemma InsertThenRemove<T>(l: KList<T>, x: T, p: nat)
    requires l.Valid() && p <= |l.items|
    ensures l.InsertAt(p, x).RemoveAt(p) == l
    ensures l.InsertEnd(x).RemoveAt(if l.index == -1 then |l.items| else l.index) == l
  {
    assert (l.items[..p] + [x] + l.items[p..])[..p] == l.items[..p];
    assert (l.items[..p] + [x] + l.items[p..])[p + 1..] == l.items[p..];
    assert l.items[..p] + l.items[p..] == l.items;
    if l.index != -1 {
      var i := l.index;
      assert (l.items[..i] + [x] + l.items[i..])[..i] == l.items[..i];
      assert (l.items[..i] + [x] + l.items[i..])[i + 1..] == l.items[i..];
      assert l.items[..i] + l.items[i..] == l.items;
    }
  }

  /** The items a walk returns, in the order in which `n` steps return them. */
  function Walk<T>(l: KList<T>, n: nat): (visited: seq<T>)
    requires l.Valid() && l.items != []
    ensures |visited| == n
    decreases n
  {
    if n == 0 then [] else [l.Next().items[l.Next().index]] + Walk(l.Next(), n - 1)
  }

  /** A walk goes round the list: within a round, its k-th step returns the item k places behind the index. */
  lemma {:induction false} WalkVisits<T>(l: KList<T>, n: nat, k: nat)
    requires l.Valid() && k < n && k < |l.items|
    ensures var i := l.index + 1 + k;
            Walk(l, n)[k] == l.items[if i < |l.items| then i else i - |l.items|]
    decreases n
  {
    if k > 0 {
      WalkVisits(l.Next(), n - 1, k - 1);
    }
  }

  /** Where an item inserted with `InsertEnd` comes in the next full round: last when the walking index is on the end
      marker, and otherwise last but one, only the item the index stands on (the one returned before the insertion)
      coming after it. So "last to be returned" holds if and only if the index is on the marker. */
  lemma InsertEndInNextRound<T>(l: KList<T>, x: T)
    requires l.Valid()
    ensures var r := l.InsertEnd(x);
            if l.index == -1 then Walk(r, |r.items|)[|r.items| - 1] == x
            else && Walk(r, |r.items|)[|r.items| - 2] == x
                 && Walk(r, |r.items|)[|r.items| - 1] == l.items[l.index]
  {
    var r := l.InsertEnd(x);
    var n := |r.items|;
    WalkVisits(r, n, n - 1);
    if l.index != -1 {
      WalkVisits(r, n, n - 2);
    }
  }
}
