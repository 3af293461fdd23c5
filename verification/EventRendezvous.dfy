/** A group of tasks that meet by xEventGroupSync: each sets a bit of its own and waits for the bits of all. */
module EventRendezvous {
  import opened EventBits

  /** The bits that the tasks bring, one set for each. */
  ghost predicate Party(bits: seq<Word>) {
    && |bits| > 0
    && (forall i :: 0 <= i < |bits| ==> bits[i] != {} && bits[i] !! CONTROL_BYTES)
    && (forall i, j :: 0 <= i < j < |bits| ==> bits[i] !! bits[j])
  }

  ghost function Union(bits: seq<Word>, tasks: set<nat>): Word {
    set i, x | i in tasks && 0 <= i < |bits| && x in bits[i] :: x
  }

  function Everyone(bits: seq<Word>): set<nat> { set i: nat {:trigger bits[i]} | i < |bits| }

  ghost function Mask(bits: seq<Word>): Word { Union(bits, Everyone(bits)) }

  ghost function Request(bits: seq<Word>): Call { Call(Mask(bits), true, true) }

  /** The steps of a rendezvous: arriving, running out of time, and going on. */
  ghost predicate Step(bits: seq<Word>, action: Action) {
    match action
    case Sync(task, added, mask, _) => task < |bits| && added == bits[task] && mask == Mask(bits)
    case Expire(_) => true
    case Resume(_) => true
    case _ => false
  }

  /** All have arrived with this step, since the mask was last clear. */
  predicate Completes(bits: seq<Word>, arrived: set<nat>, action: Action) {
    action.Sync? && arrived + {action.task} == Everyone(bits)
  }

  function NextArrived(bits: seq<Word>, arrived: set<nat>, action: Action): set<nat> {
    if Completes(bits, arrived, action) then {}
    else if action.Sync? then arrived + {action.task}
    else arrived
  }

  ghost predicate Meeting(g: Group, bits: seq<Word>, arrived: set<nat>) {
    && Inv(g)
    && Party(bits)
    && arrived < Everyone(bits)
    && g.bits * Mask(bits) == Union(bits, arrived)
    && (forall w :: w in g.waiting ==> w.task in arrived)
    && (forall t :: t in g.calls ==> g.calls[t] == Request(bits))
  }

  lemma UnionOne(bits: seq<Word>, tasks: set<nat>, task: nat)
    requires task < |bits|
    ensures Union(bits, tasks + {task}) == Union(bits, tasks) + bits[task]
    ensures bits[task] <= Mask(bits)
  {
    forall x ensures x in Union(bits, tasks + {task}) <==> x in Union(bits, tasks) + bits[task] {
      if x in bits[task] {
        assert task in tasks + {task};
      }
    }
    forall x | x in bits[task] ensures x in Mask(bits) {
      assert task in Everyone(bits);
    }
  }

  /** The mask is complete only when everyone has brought its bits. */
  lemma UnionIsMask(bits: seq<Word>, tasks: set<nat>)
    requires Party(bits) && tasks <= Everyone(bits)
    ensures Mask(bits) <= Union(bits, tasks) <==> tasks == Everyone(bits)
  {
    if Mask(bits) <= Union(bits, tasks) {
      forall i | i in Everyone(bits) ensures i in tasks {
        var x :| x in bits[i];
        assert x in Mask(bits);
        var j :| j in tasks && 0 <= j < |bits| && x in bits[j];
      }
    }
  }

  lemma MaskOk(bits: seq<Word>)
    requires Party(bits)
    ensures CallOk(Request(bits))
  {
    var x :| x in bits[0];
    assert x in Mask(bits);
  }

  /** An arrival meets the condition of those who wait exactly when it is the last. */
  lemma ArrivalCompletes(g: Group, bits: seq<Word>, arrived: set<nat>, action: Action)
    requires Meeting(g, bits, arrived) && Step(bits, action) && action.Sync?
    ensures Mask(bits) <= g.bits + action.added <==> Completes(bits, arrived, action)
    ensures (g.bits + action.added) * Mask(bits) == Union(bits, arrived + {action.task})
    ensures Satisfied(g.bits + action.added, Request(bits)) <==> Completes(bits, arrived, action)
  {
    UnionOne(bits, arrived, action.task);
    assert action.task in Everyone(bits);
    UnionIsMask(bits, arrived + {action.task});
    hide Union;
    assert (g.bits + action.added) * Mask(bits) == g.bits * Mask(bits) + action.added;
  }

  lemma NoMembers(waiting: seq<Waiter>)
    ensures waiting == [] || exists w :: w in waiting
  {
    if waiting != [] {
      assert waiting[0] in waiting;
    }
  }

  /** When the last arrives, everyone who still waits is freed with the full mask in hand, and the mask is clear again. */
  lemma LastArrival(g: Group, bits: seq<Word>, arrived: set<nat>, action: Action)
    requires Meeting(g, bits, arrived) && Step(bits, action) && Enabled(g, action)
    requires Completes(bits, arrived, action)
    ensures var after := Apply(g, action);
            && after.waiting == []
            && after.bits * Mask(bits) == {}
            && (forall w :: w in g.waiting ==>
                  w.task in after.woken && after.woken[w.task] == Marked(g.bits + action.added))
            && after.outcomes == g.outcomes + [Return(action.task, Request(bits), g.bits + action.added, false)]
  {
    ArrivalCompletes(g, bits, arrived, action);
    SetFreesExactly(g, action.added);
    var kept := AfterSet(g, action.added).waiting;
    forall w | w in g.waiting ensures Satisfied(g.bits + action.added, g.calls[w.task]) {
      assert StillWaits(g, w);
    }
    assert forall w :: w in kept ==> w in g.waiting;
    NoMembers(kept);
  }

  /** Before that nobody is freed and nobody passes. */
  lemma EarlierArrival(g: Group, bits: seq<Word>, arrived: set<nat>, action: Action)
    requires Meeting(g, bits, arrived) && Step(bits, action) && Enabled(g, action) && action.Sync?
    requires !Completes(bits, arrived, action)
    ensures var after, mine := Apply(g, action), [Waiter(action.task, Pack(Request(bits)))];
            && after.waiting == g.waiting + (if action.block then mine else [])
            && after.woken == g.woken
            && after.bits == g.bits + action.added
            && (forall r :: r in after.outcomes && r !in g.outcomes ==> r.timedOut)
  {
    NobodySatisfied(g, bits, arrived, action);
    hide Meeting, Matches, Satisfied, Kept, Freed, ToClear, Pack, Mask, Marked;
    NobodyMatches(g.waiting, g.bits + action.added);
    NothingToWake(g.woken, g.bits + action.added);
  }

  lemma NobodySatisfied(g: Group, bits: seq<Word>, arrived: set<nat>, action: Action)
    requires Meeting(g, bits, arrived) && Step(bits, action) && action.Sync? && !Completes(bits, arrived, action)
    ensures !(Mask(bits) <= g.bits + action.added)
    ensures forall w :: w in g.waiting ==> !Matches(w, g.bits + action.added)
  {
    hide Mask;
    ArrivalCompletes(g, bits, arrived, action);
    forall w | w in g.waiting ensures !Matches(w, g.bits + action.added) {
      assert StillWaits(g, w);
      assert g.calls[w.task] == Request(bits);
      UnpackPack(g.calls[w.task]);
    }
  }

  lemma {:induction false} NobodyMatches(waiting: seq<Waiter>, bits: Word)
    requires forall w :: w in waiting ==> !Matches(w, bits)
    ensures Kept(waiting, bits) == waiting && Freed(waiting, bits) == [] && ToClear(waiting, bits) == {}
  {
    hide Matches;
    if waiting != [] {
      NobodyMatches(waiting[1..], bits);
    }
  }

  lemma ArrivalKeepsMeeting(g: Group, bits: seq<Word>, arrived: set<nat>, action: Action)
    requires Meeting(g, bits, arrived) && Step(bits, action) && Enabled(g, action) && action.Sync?
    ensures Meeting(Apply(g, action), bits, NextArrived(bits, arrived, action))
  {
    ApplyKeepsInv(g, action);
    ArrivalCompletes(g, bits, arrived, action);
    MaskOk(bits);
    if Completes(bits, arrived, action) {
      LastArrival(g, bits, arrived, action);
      assert 0 in Everyone(bits);
      assert Union(bits, {}) == {};
    } else {
      EarlierArrival(g, bits, arrived, action);
      assert action.task in Everyone(bits);
    }
  }

  /** Running out of time takes a task off the list and leaves its bit; going on without the mark cannot find the mask
      complete, so it clears nothing. */
  lemma LeavingKeepsMeeting(g: Group, bits: seq<Word>, arrived: set<nat>, action: Action)
    requires Meeting(g, bits, arrived) && Enabled(g, action) && (action.Expire? || action.Resume?)
    ensures Meeting(Apply(g, action), bits, arrived)
    ensures Apply(g, action).bits == g.bits
  {
    ApplyKeepsInv(g, action);
    UnionIsMask(bits, arrived);
    hide Union, Inv;
    assert Satisfied(g.bits, Request(bits)) ==> g.bits * Mask(bits) == Mask(bits);
  }

  lemma StepKeepsMeeting(g: Group, bits: seq<Word>, arrived: set<nat>, action: Action)
    requires Meeting(g, bits, arrived) && Step(bits, action) && Enabled(g, action)
    ensures Meeting(Apply(g, action), bits, NextArrived(bits, arrived, action))
  {
    if action.Sync? {
      ArrivalKeepsMeeting(g, bits, arrived, action);
    } else {
      LeavingKeepsMeeting(g, bits, arrived, action);
    }
  }

  ghost function Arrived(bits: seq<Word>, arrived: set<nat>, actions: seq<Action>): set<nat>
    decreases |actions|
  {
    if actions == [] then arrived else Arrived(bits, NextArrived(bits, arrived, actions[0]), actions[1..])
  }

  ghost predicate Steps(bits: seq<Word>, actions: seq<Action>) {
    forall i :: 0 <= i < |actions| ==> Step(bits, actions[i])
  }

  lemma {:induction false} RunKeepsMeeting(g: Group, bits: seq<Word>, arrived: set<nat>, actions: seq<Action>)
    requires Meeting(g, bits, arrived) && Steps(bits, actions) && Runs(g, actions)
    ensures Meeting(After(g, actions), bits, Arrived(bits, arrived, actions))
    decreases |actions|
  {
    hide Meeting, NextArrived, Step;
    if actions != [] {
      StepKeepsMeeting(g, bits, arrived, actions[0]);
      RunKeepsMeeting(Apply(g, actions[0]), bits, NextArrived(bits, arrived, actions[0]), actions[1..]);
    }
  }

  /**
   * In any number of rounds, with any time-outs: the next step lets a task pass, or frees one, without a time-out exactly
   * if with it everyone has arrived since the mask was last clear; and the mask is then clear again.
   */
  lemma NobodyPassesEarly(bits: seq<Word>, actions: seq<Action>, next: Action)
    requires Party(bits) && Steps(bits, actions) && Step(bits, next) && next.Sync?
    requires Runs(NEW_GROUP, actions) && Enabled(After(NEW_GROUP, actions), next)
    ensures var g := After(NEW_GROUP, actions);
            var after := Apply(g, next);
            var complete := Completes(bits, Arrived(bits, {}, actions), next);
            && (complete <==> after.outcomes != g.outcomes && !after.outcomes[|after.outcomes| - 1].timedOut)
            && (complete ==> after.waiting == [] && after.bits * Mask(bits) == {})
            && (complete ==> forall w :: w in g.waiting ==>
                  w.task in after.woken && Mask(bits) <= after.woken[w.task] && UNBLOCKED_BY_SET in after.woken[w.task])
            && (!complete ==> after.woken == g.woken && g.waiting <= after.waiting)
  {
    hide Runs, After, Steps, Inv, Union, Marked, Arrived;
    PartyMeets(bits, actions);
    var g, arrived := After(NEW_GROUP, actions), Arrived(bits, {}, actions);
    ArrivalCompletes(g, bits, arrived, next);
    if Completes(bits, arrived, next) {
      MarkedHas(g.bits + next.added);
      LastArrival(g, bits, arrived, next);
    } else {
      EarlierArrival(g, bits, arrived, next);
    }
  }

  lemma PartyMeets(bits: seq<Word>, actions: seq<Action>)
    requires Party(bits) && Steps(bits, actions) && Runs(NEW_GROUP, actions)
    ensures Meeting(After(NEW_GROUP, actions), bits, Arrived(bits, {}, actions))
  {
    assert Union(bits, {}) == {};
    assert 0 in Everyone(bits);
    RunKeepsMeeting(NEW_GROUP, bits, {}, actions);
  }

  lemma MarkedHas(bits: Word)
    ensures bits <= Marked(bits) && UNBLOCKED_BY_SET in Marked(bits)
  {
  }
}
