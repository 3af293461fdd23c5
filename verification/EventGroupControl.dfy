/** The event group object, whose bits and list are updated in place. */
module EventGroupControl {
  import opened EventBits
  import opened EventLaws

  class EventGroup {
    var eventBits: Word
    var tasksWaitingForBits: seq<Waiter>
    /** Item values of tasks taken off the list that have not run since, and the calls that tasks are in. */
    var woken: map<nat, Word>
    var calls: map<nat, Call>
    ghost var outcomes: seq<Return>

    ghost function View(): Group
      reads this
    {
      Group(eventBits, tasksWaitingForBits, woken, calls, outcomes)
    }

    /** xEventGroupCreate */
    constructor ()
      ensures View() == NEW_GROUP && Inv(View())
    {
      eventBits, tasksWaitingForBits, woken, calls, outcomes := {}, [], map[], map[], [];
    }

    /** prvTestWaitCondition */
    static method TestWaitCondition(current: Word, mask: Word, all: bool) returns (met: bool)
      ensures all ==> (met <==> mask <= current)
      ensures !all ==> (met <==> exists x :: x in mask && x in current)
      ensures met <==> Met(current, mask, all)
    {
      if !all {
        met := current * mask != {};
        if met {
          var x :| x in current * mask;
          assert x in mask && x in current;
        } else {
          assert forall x :: x in mask && x in current ==> x in current * mask;
        }
      } else {
        met := current * mask == mask;
        assert mask <= current ==> current * mask == mask;
      }
    }

    /** vTaskRemoveFromUnorderedEventList */
    method RemoveFromUnorderedEventList(position: nat, value: Word)
      requires position < |tasksWaitingForBits|
      modifies this`tasksWaitingForBits, this`woken
      ensures tasksWaitingForBits == old(tasksWaitingForBits)[..position] + old(tasksWaitingForBits)[position + 1..]
      ensures woken == old(woken)[old(tasksWaitingForBits)[position].task := value + {ITEM_IN_USE}]
    {
      woken := woken[tasksWaitingForBits[position].task := value + {ITEM_IN_USE}];
      tasksWaitingForBits := tasksWaitingForBits[..position] + tasksWaitingForBits[position + 1..];
    }

    /** One turn of the loop of xEventGroupSetBits; `next` is where the following item then stands. */
    method Examine(at: nat, bitsToClear: Word, ghost rest: seq<Waiter>) returns (next: nat, clear: Word)
      requires at < |tasksWaitingForBits| && tasksWaitingForBits[at..] == rest
      modifies this`tasksWaitingForBits, this`woken
      ensures next <= |tasksWaitingForBits| && tasksWaitingForBits[next..] == rest[1..]
      ensures old(tasksWaitingForBits[..at]) + Kept(rest, eventBits)
           == tasksWaitingForBits[..next] + Kept(rest[1..], eventBits)
      ensures bitsToClear + ToClear(rest, eventBits) == clear + ToClear(rest[1..], eventBits)
      ensures Wake(old(woken), Freed(rest, eventBits), eventBits) == Wake(woken, Freed(rest[1..], eventBits), eventBits)
    {
      assert rest[0] == tasksWaitingForBits[at] && tasksWaitingForBits[at + 1..] == rest[1..];
      FirstWaiter(rest, eventBits);
      WakeFirst(woken, rest[0], Freed(rest[1..], eventBits), eventBits);
      hide Kept, Freed, ToClear, Wake;
      var value := tasksWaitingForBits[at].value;
      var control := value * CONTROL_BYTES;
      var wanted := value - CONTROL_BYTES;
      var matchFound := if WAIT_FOR_ALL !in control then wanted * eventBits != {} else wanted * eventBits == wanted;
      assert matchFound == Matches(rest[0], eventBits)
          && Unpack(value) == Call(wanted, CLEAR_ON_EXIT in control, WAIT_FOR_ALL in control) by {
        assert wanted * eventBits == eventBits * wanted;
      }
      hide Matches, Unpack;
      next, clear := at + 1, bitsToClear;
      if matchFound {
        if CLEAR_ON_EXIT in control {
          clear := clear + wanted;
        }
        assert eventBits + {UNBLOCKED_BY_SET} + {ITEM_IN_USE} == Marked(eventBits);
        hide Marked;
        RemoveFromUnorderedEventList(at, eventBits + {UNBLOCKED_BY_SET});
        next := at;
        assert [] + Freed(rest[1..], eventBits) == Freed(rest[1..], eventBits);
        assert [] + Kept(rest[1..], eventBits) == Kept(rest[1..], eventBits);
      } else {
        assert [] + Freed(rest[1..], eventBits) == Freed(rest[1..], eventBits);
        assert old(tasksWaitingForBits[..at]) + ([rest[0]] + Kept(rest[1..], eventBits))
            == tasksWaitingForBits[..next] + Kept(rest[1..], eventBits);
      }
    }

    /** xEventGroupSetBits */
    method SetBits(bitsToSet: Word) returns (bits: Word)
      requires Inv(View()) && Enabled(View(), EventBits.SetBits(bitsToSet))
      modifies this`eventBits, this`tasksWaitingForBits, this`woken
      ensures Inv(View()) && View() == Apply(old(View()), EventBits.SetBits(bitsToSet))
      ensures bits == eventBits
      ensures forall x :: x in eventBits <==> SetAfter(old(View()), EventBits.SetBits(bitsToSet), x)
    {
      AllBitsAfter(View(), EventBits.SetBits(bitsToSet));
      hide SetAfter;
      hide Kept, Freed, ToClear, Wake, Inv;
      SetKeepsInv(View(), bitsToSet);
      ghost var target := AfterSet(View(), bitsToSet);
      ghost var waiting, rest := tasksWaitingForBits, tasksWaitingForBits;
      eventBits := eventBits + bitsToSet;
      var bitsToClear: Word := {};
      var at: nat := 0;
      assert target == old(View()).(bits := eventBits - ToClear(rest, eventBits), waiting := Kept(rest, eventBits),
                                    woken := Wake(woken, Freed(rest, eventBits), eventBits));
      NobodyLeft(eventBits);
      while at < |tasksWaitingForBits|
        invariant at <= |tasksWaitingForBits| && tasksWaitingForBits[at..] == rest
        invariant Kept(waiting, eventBits) == tasksWaitingForBits[..at] + Kept(rest, eventBits)
        invariant ToClear(waiting, eventBits) == bitsToClear + ToClear(rest, eventBits)
        invariant Wake(old(woken), Freed(waiting, eventBits), eventBits) == Wake(woken, Freed(rest, eventBits), eventBits)
        invariant eventBits == old(eventBits) + bitsToSet
        decreases |rest|
      {
        at, bitsToClear := Examine(at, bitsToClear, rest);
        rest := rest[1..];
      }
      assert tasksWaitingForBits[..at] + [] == tasksWaitingForBits && rest == [];
      NothingToWake(woken, eventBits);
      eventBits := eventBits - bitsToClear;
      bits := eventBits;
    }

    /** xEventGroupClearBits */
    method ClearBits(bitsToClear: Word) returns (bits: Word)
      requires Inv(View()) && Enabled(View(), EventBits.ClearBits(bitsToClear))
      modifies this`eventBits
      ensures Inv(View()) && View() == Apply(old(View()), EventBits.ClearBits(bitsToClear))
      ensures bits == old(eventBits) && eventBits == old(eventBits) - bitsToClear
    {
      ClearKeepsInv(View(), bitsToClear);
      bits := eventBits;
      eventBits := eventBits - bitsToClear;
    }

    method PlaceOnUnorderedEventList(task: nat, value: Word)
      modifies this`tasksWaitingForBits
      ensures tasksWaitingForBits == old(tasksWaitingForBits) + [Waiter(task, value + {ITEM_IN_USE})]
    {
      tasksWaitingForBits := tasksWaitingForBits + [Waiter(task, value + {ITEM_IN_USE})];
    }

    /** xEventGroupWaitBits up to where the task blocks; `blocked` tells whether it does. */
    method WaitBits(task: nat, call: Call, block: bool) returns (bits: Word, blocked: bool)
      requires Inv(View()) && Enabled(View(), EventBits.WaitBits(task, call, block))
      modifies this
      ensures Inv(View()) && View() == Apply(old(View()), EventBits.WaitBits(task, call, block))
      ensures blocked <==> block && !Fulfils(old(eventBits), call)
      ensures !blocked ==> bits == old(eventBits)
      ensures eventBits == old(eventBits) - if Fulfils(old(eventBits), call) && call.clear then call.mask else {}
      ensures blocked ==> exists w :: w in tasksWaitingForBits && w.task == task
    {
      FulfilsIsSatisfied(eventBits, call);
      hide Fulfils;
      ApplyKeepsInv(View(), EventBits.WaitBits(task, call, block));
      bits, blocked := eventBits, false;
      var met := TestWaitCondition(eventBits, call.mask, call.all);
      if met {
        if call.clear {
          eventBits := eventBits - call.mask;
        }
        outcomes := outcomes + [Return(task, call, bits, false)];
      } else if !block {
        outcomes := outcomes + [Return(task, call, bits, true)];
      } else {
        var control: Word := {};
        if call.clear {
          control := control + {CLEAR_ON_EXIT};
        }
        if call.all {
          control := control + {WAIT_FOR_ALL};
        }
        assert call.mask + control + {ITEM_IN_USE} == Pack(call);
        PlaceOnUnorderedEventList(task, call.mask + control);
        assert tasksWaitingForBits[|tasksWaitingForBits| - 1].task == task;
        calls := calls[task := call];
        blocked := true;
      }
    }

    /** xEventGroupSync up to where the task blocks */
    method Sync(task: nat, bitsToSet: Word, mask: Word, block: bool) returns (bits: Word, blocked: bool)
      requires Inv(View()) && Enabled(View(), EventBits.Sync(task, bitsToSet, mask, block))
      modifies this
      ensures Inv(View()) && View() == Apply(old(View()), EventBits.Sync(task, bitsToSet, mask, block))
      ensures blocked <==> block && !(mask <= old(eventBits) + bitsToSet)
      ensures !blocked && mask <= old(eventBits) + bitsToSet ==> bits == old(eventBits) + bitsToSet
      ensures !blocked && !(mask <= old(eventBits) + bitsToSet) ==> bits == eventBits
      ensures forall x :: x in eventBits <==> SetAfter(old(View()), EventBits.Sync(task, bitsToSet, mask, block), x)
    {
      AllBitsAfter(View(), EventBits.Sync(task, bitsToSet, mask, block));
      hide SetAfter;
      ApplyKeepsInv(View(), EventBits.Sync(task, bitsToSet, mask, block));
      var original := eventBits;
      blocked := false;
      var _ := SetBits(bitsToSet);
      hide Inv, AfterSet;
      assert (original + bitsToSet) * mask == mask <==> mask <= original + bitsToSet;
      if (original + bitsToSet) * mask == mask {
        bits := original + bitsToSet;
        eventBits := eventBits - mask;
        outcomes := outcomes + [Return(task, Call(mask, true, true), bits, false)];
      } else if block {
        PlaceOnUnorderedEventList(task, mask + {CLEAR_ON_EXIT} + {WAIT_FOR_ALL});
        calls := calls[task := Call(mask, true, true)];
        bits, blocked := {}, true;
      } else {
        bits := eventBits;
        outcomes := outcomes + [Return(task, Call(mask, true, true), bits, true)];
      }
    }

    /** The rest of xEventGroupWaitBits and xEventGroupSync, once a task that blocked runs again */
    method FinishWait(task: nat) returns (bits: Word, timedOut: bool)
      requires Inv(View()) && Enabled(View(), Resume(task))
      modifies this
      ensures Inv(View()) && View() == Apply(old(View()), Resume(task))
      ensures timedOut <==> UNBLOCKED_BY_SET !in old(woken)[task]
      ensures !timedOut ==> Fulfils(bits, old(calls)[task])
      ensures bits == if timedOut then old(eventBits) else old(woken)[task] - CONTROL_BYTES
      ensures var call := old(calls)[task];
              eventBits == old(eventBits) - if timedOut && Fulfils(old(eventBits), call) && call.clear then call.mask else {}
    {
      FulfilsIsSatisfied(eventBits, calls[task]);
      FulfilsIsSatisfied(woken[task] - CONTROL_BYTES, calls[task]);
      assert eventBits - CONTROL_BYTES == eventBits;
      hide Fulfils;
      ApplyKeepsInv(View(), Resume(task));
      assert WokenOk(View(), task);
      var call := calls[task];
      bits := woken[task];
      woken, calls := woken - {task}, calls - {task};
      timedOut := UNBLOCKED_BY_SET !in bits;
      if timedOut {
        bits := eventBits;
        var met := TestWaitCondition(bits, call.mask, call.all);
        if met && call.clear {
          eventBits := eventBits - call.mask;
        }
      }
      bits := bits - CONTROL_BYTES;
      outcomes := outcomes + [Return(task, call, bits, timedOut)];
    }
  }

  lemma FirstWaiter(rest: seq<Waiter>, bits: Word)
    requires rest != []
    ensures Kept(rest, bits) == (if Matches(rest[0], bits) then [] else [rest[0]]) + Kept(rest[1..], bits)
    ensures Freed(rest, bits) == (if Matches(rest[0], bits) then [rest[0]] else []) + Freed(rest[1..], bits)
    ensures ToClear(rest, bits)
         == ToClear(rest[1..], bits)
            + if Matches(rest[0], bits) && Unpack(rest[0].value).clear then Unpack(rest[0].value).mask else {}
  {
  }

  lemma NobodyLeft(bits: Word)
    ensures Kept([], bits) == [] && Freed([], bits) == [] && ToClear([], bits) == {}
  {
  }

  lemma WakeAt(woken: map<nat, Word>, freed: seq<Waiter>, bits: Word, t: nat)
    ensures t in Wake(woken, freed, bits) <==> t in woken || exists w :: w in freed && w.task == t
    ensures t in Wake(woken, freed, bits) ==>
              Wake(woken, freed, bits)[t] == if exists w :: w in freed && w.task == t then Marked(bits) else woken[t]
  {
    hide Marked;
  }

  lemma WakeFirst(woken: map<nat, Word>, first: Waiter, freed: seq<Waiter>, bits: Word)
    ensures Wake(woken, [first] + freed, bits) == Wake(woken[first.task := Marked(bits)], freed, bits)
  {
    var a, b := Wake(woken, [first] + freed, bits), Wake(woken[first.task := Marked(bits)], freed, bits);
    forall t ensures t in a <==> t in b
             ensures t in a ==> a[t] == b[t]
    {
      WakeAt(woken, [first] + freed, bits, t);
      WakeAt(woken[first.task := Marked(bits)], freed, bits, t);
      hide Wake, Marked;
      assert first in [first] + freed;
    }
  }
}
