/** What the calls of an event group mean for a single bit: when it is set afterwards, what each call returns, and who may
    use it up. */
module EventLaws {
  import opened EventBits

  /** The bits give the call what it waits for: all of its mask, or any of it. */
  predicate Fulfils(bits: Word, call: Call) {
    if call.all then forall y <- call.mask :: y in bits else exists y <- call.mask :: y in bits
  }

  lemma FulfilsIsSatisfied(bits: Word, call: Call)
    ensures Fulfils(bits, call) <==> Satisfied(bits, call)
  {
    if call.all {
      assert bits * call.mask == call.mask <==> call.mask <= bits;
    } else if y :| y in call.mask && y in bits {
      assert y in bits * call.mask;
    } else {
      assert bits * call.mask == {};
    }
  }

  /** Task t waits, and setting `added` gives it what it waits for. */
  ghost predicate Frees(g: Group, added: Word, t: nat) {
    t in g.calls && Fulfils(g.bits + added, g.calls[t]) && exists w :: w in g.waiting && w.task == t
  }

  /** A task that setting `added` frees has asked for bit x to be cleared. */
  ghost predicate ClearedFor(g: Group, added: Word, x: nat, t: nat) {
    Frees(g, added, t) && g.calls[t].clear && x in g.calls[t].mask
  }

  // ----- one bit, one call

  /** Bit x is set after the call. */
  ghost predicate SetAfter(g: Group, action: Action, x: nat) {
    match action
    case SetBits(added) => (x in g.bits || x in added) && !exists t :: ClearedFor(g, added, x, t)
    case ClearBits(clear) => x in g.bits && x !in clear
    case WaitBits(_, call, _) => x in g.bits && !(Fulfils(g.bits, call) && call.clear && x in call.mask)
    case Sync(_, added, mask, _) =>
      && (x in g.bits || x in added) && !(exists t :: ClearedFor(g, added, x, t))
      && !(x in mask && forall y <- mask :: y in g.bits || y in added)
    case Expire(_) => x in g.bits
    case Resume(task) =>
      x in g.bits && !(task in g.woken && task in g.calls && UNBLOCKED_BY_SET !in g.woken[task]
                       && Fulfils(g.bits, g.calls[task]) && g.calls[task].clear && x in g.calls[task].mask)
  }

  lemma BitAfterSetting(g: Group, added: Word, x: nat)
    requires Inv(g) && added !! CONTROL_BYTES
    ensures x in AfterSet(g, added).bits <==> (x in g.bits || x in added) && !exists t :: ClearedFor(g, added, x, t)
  {
    var bits := g.bits + added;
    ToClearBit(g.waiting, bits, x);
    forall w | w in g.waiting ensures Clears(w, bits, x) <==> ClearedFor(g, added, x, w.task) {
      assert StillWaits(g, w);
      UnpackPack(g.calls[w.task]);
      FulfilsIsSatisfied(bits, g.calls[w.task]);
    }
    hide Clears, ToClear, Kept, Freed, Wake, Fulfils, Satisfied;
    if t :| ClearedFor(g, added, x, t) {
      var w :| w in g.waiting && w.task == t;
    }
  }

  /** After every call a bit is set exactly if it was, or has just been set, and no task that the call lets pass has asked
      for it to be cleared. A wait that is not met, and running out of time, change no bit. */
  lemma BitAfter(g: Group, action: Action, x: nat)
    requires Inv(g) && Enabled(g, action)
    ensures x in Apply(g, action).bits <==> SetAfter(g, action, x)
  {
    match action
    case SetBits(added) =>
      BitAfterSetting(g, added, x);
    case Sync(_, added, mask, _) =>
      hide AfterSet, Inv, ClearedFor;
      BitAfterSetting(g, added, x);
    case WaitBits(_, call, _) =>
      hide Satisfied, Fulfils, Inv;
      FulfilsIsSatisfied(g.bits, call);
    case Resume(task) =>
      hide Satisfied, Fulfils, Inv;
      FulfilsIsSatisfied(g.bits, g.calls[task]);
    case _ =>
  }

  lemma AllBitsAfter(g: Group, action: Action)
    requires Inv(g) && Enabled(g, action)
    ensures forall x :: x in Apply(g, action).bits <==> SetAfter(g, action, x)
  {
    forall x ensures x in Apply(g, action).bits <==> SetAfter(g, action, x) {
      BitAfter(g, action, x);
    }
  }

  // ----- what calls return

  /** What the call returns, if it returns at once */
  ghost predicate Returns(g: Group, action: Action, r: Return) {
    match action
    case WaitBits(task, call, block) =>
      && r == Return(task, call, g.bits, !Fulfils(g.bits, call))
      && (block ==> !r.timedOut)
    case Sync(task, added, mask, block) =>
      && r.task == task && r.call == Call(mask, true, true)
      && (r.timedOut <==> !(mask <= g.bits + added))
      && (!r.timedOut ==> r.bits == g.bits + added)
      && (r.timedOut ==> forall x :: x in r.bits <==> SetAfter(g, action, x))
      && (block ==> !r.timedOut)
    case Resume(task) =>
      && task in g.woken && task in g.calls
      && r.task == task && r.call == g.calls[task] && (r.timedOut <==> UNBLOCKED_BY_SET !in g.woken[task])
      && r.bits == (if r.timedOut then g.bits else g.woken[task] - CONTROL_BYTES)
    case _ => false
  }

  /** The call blocks: it may, and the bits do not give it what it waits for. */
  ghost predicate Blocks(g: Group, action: Action) {
    match action
    case WaitBits(_, call, block) => block && !Fulfils(g.bits, call)
    case Sync(_, added, mask, block) => block && !(mask <= g.bits + added)
    case _ => false
  }

  lemma ReturnsExactly(g: Group, action: Action)
    requires Inv(g) && Enabled(g, action)
    ensures var after := Apply(g, action);
            && (after.outcomes == g.outcomes
                || (|after.outcomes| == |g.outcomes| + 1 && after.outcomes[..|g.outcomes|] == g.outcomes
                    && Returns(g, action, after.outcomes[|g.outcomes|])))
            && (after.outcomes == g.outcomes <==>
                  action.SetBits? || action.ClearBits? || action.Expire? || Blocks(g, action))
  {
    match action
    case WaitBits(_, call, _) =>
      hide Satisfied, Fulfils, Inv;
      FulfilsIsSatisfied(g.bits, call);
    case Sync(_, added, mask, _) =>
      hide AfterSet, Inv;
      forall x ensures x in Apply(g, action).bits <==> SetAfter(g, action, x) {
        BitAfter(g, action, x);
      }
      hide SetAfter;
    case Resume(task) =>
      assert g.bits - CONTROL_BYTES == g.bits;
    case _ =>
  }

  // ----- who uses a bit up

  /** By this call, task t gets bits that hold x, without a time-out, and has x cleared: its wait is met at once, or it is
      freed from its wait, or it completes a rendezvous. */
  ghost predicate TakesBit(g: Group, action: Action, t: nat, x: nat) {
    match action
    case WaitBits(task, call, _) => t == task && Fulfils(g.bits, call) && call.clear && x in call.mask && x in g.bits
    case SetBits(added) => ClearedFor(g, added, x, t) && (x in g.bits || x in added)
    case Sync(task, added, mask, _) =>
      || (ClearedFor(g, added, x, t) && (x in g.bits || x in added))
      || (t == task && mask <= g.bits + added && x in mask)
    case _ => false
  }

  predicate Sets(action: Action, x: nat) {
    match action
    case SetBits(added) => x in added
    case Sync(_, added, _, _) => x in added
    case _ => false
  }

  lemma TakingClears(g: Group, action: Action, t: nat, x: nat)
    requires Inv(g) && Enabled(g, action) && TakesBit(g, action, t, x)
    ensures x !in Apply(g, action).bits
    ensures x in g.bits || Sets(action, x)
  {
    hide Inv, ClearedFor, Fulfils;
    BitAfter(g, action, x);
  }

  lemma BitComesBySetting(g: Group, action: Action, x: nat)
    requires Inv(g) && Enabled(g, action) && x !in g.bits && x in Apply(g, action).bits
    ensures Sets(action, x)
  {
    hide Inv, ClearedFor, Fulfils;
    BitAfter(g, action, x);
  }

  // ----- runs

  ghost function GroupAt(g: Group, actions: seq<Action>, n: nat): Group
    requires Runs(g, actions) && n <= |actions|
    decreases |actions|
  {
    if n == 0 then g else GroupAt(Apply(g, actions[0]), actions[1..], n - 1)
  }

  lemma {:induction false} StepAt(g: Group, actions: seq<Action>, n: nat)
    requires Inv(g) && Runs(g, actions) && n < |actions|
    ensures Enabled(GroupAt(g, actions, n), actions[n]) && Inv(GroupAt(g, actions, n))
    ensures GroupAt(g, actions, n + 1) == Apply(GroupAt(g, actions, n), actions[n])
    decreases n
  {
    hide Inv, Enabled, Apply;
    ApplyKeepsInv(g, actions[0]);
    if n == 0 {
      assert GroupAt(Apply(g, actions[0]), actions[1..], 0) == Apply(g, actions[0]);
    } else {
      StepAt(Apply(g, actions[0]), actions[1..], n - 1);
    }
  }

  lemma {:induction false} LastGroup(g: Group, actions: seq<Action>)
    requires Runs(g, actions)
    ensures GroupAt(g, actions, |actions|) == After(g, actions)
    decreases |actions|
  {
    hide Enabled, Apply;
    if actions != [] {
      LastGroup(Apply(g, actions[0]), actions[1..]);
    }
  }

  /** By step i of the run, task t takes bit x. */
  ghost predicate Takes(g: Group, actions: seq<Action>, i: nat, t: nat, x: nat)
    requires Runs(g, actions)
  {
    i < |actions| && TakesBit(GroupAt(g, actions, i), actions[i], t, x)
  }

  lemma {:induction false} ClearUntilSet(g: Group, actions: seq<Action>, i: nat, j: nat, x: nat)
    requires Inv(g) && Runs(g, actions) && i <= j <= |actions| && x !in GroupAt(g, actions, i).bits
    requires forall k :: i <= k < j ==> !Sets(actions[k], x)
    ensures x !in GroupAt(g, actions, j).bits
    decreases j
  {
    hide Inv, Runs, Enabled, Apply, GroupAt, Sets;
    if i < j {
      ClearUntilSet(g, actions, i, j - 1, x);
      StepAt(g, actions, j - 1);
      if x in GroupAt(g, actions, j).bits {
        BitComesBySetting(GroupAt(g, actions, j - 1), actions[j - 1], x);
      }
    }
  }

  /** A bit that has been taken must be set again before it can be taken by a later step. */
  lemma TakenOnce(g: Group, actions: seq<Action>, i: nat, j: nat, t: nat, u: nat, x: nat)
    requires Inv(g) && Runs(g, actions) && i < j && Takes(g, actions, i, t, x) && Takes(g, actions, j, u, x)
    ensures exists k :: i < k <= j && Sets(actions[k], x)
  {
    hide Inv, Runs, Enabled, Apply, GroupAt, Sets, TakesBit;
    StepAt(g, actions, i);
    StepAt(g, actions, j);
    TakingClears(GroupAt(g, actions, i), actions[i], t, x);
    TakingClears(GroupAt(g, actions, j), actions[j], u, x);
    if forall k :: i < k < j ==> !Sets(actions[k], x) {
      ClearUntilSet(g, actions, i + 1, j, x);
      assert Sets(actions[j], x);
    }
  }

  // ----- from what was returned back to the step that took it

  /** The call returned, without a time-out, bits that hold x, which it had asked to be cleared. */
  predicate Used(r: Return, x: nat) {
    !r.timedOut && r.call.clear && x in r.call.mask && x in r.bits
  }

  predicate HasBeenFreed(g: Group, t: nat) {
    t in g.woken && t in g.calls && UNBLOCKED_BY_SET in g.woken[t]
  }

  /** The call frees task t, which finds the bits as they are with what the call has added. */
  ghost predicate FreesWith(g: Group, action: Action, t: nat, value: Word) {
    match action
    case SetBits(added) => Frees(g, added, t) && value == Marked(g.bits + added)
    case Sync(_, added, _, _) => Frees(g, added, t) && value == Marked(g.bits + added)
    case _ => false
  }

  lemma FreedBySetting(g: Group, added: Word, t: nat)
    requires Inv(g) && added !! CONTROL_BYTES && t in AfterSet(g, added).woken && t !in g.woken
    ensures Frees(g, added, t) && AfterSet(g, added).woken[t] == Marked(g.bits + added)
  {
    hide Satisfied, Fulfils, Marked, Kept, Freed, ToClear, Wake;
    SetFreesExactly(g, added);
    var w :| w in g.waiting && w.task == t && Satisfied(g.bits + added, g.calls[t]);
    assert StillWaits(g, w);
    FulfilsIsSatisfied(g.bits + added, g.calls[t]);
  }

  /** A task that has been freed was freed already, by the same bits, or is freed by this call. */
  lemma FreedByCall(g: Group, action: Action, t: nat)
    requires Inv(g) && Enabled(g, action) && HasBeenFreed(Apply(g, action), t)
    ensures t in g.calls && Apply(g, action).calls[t] == g.calls[t]
    ensures (HasBeenFreed(g, t) && Apply(g, action).woken[t] == g.woken[t])
            || FreesWith(g, action, t, Apply(g, action).woken[t])
  {
    hide Satisfied, Fulfils, Marked, Kept, ToClear, Wake, Freed;
    match action
    case SetBits(added) =>
      SetFreesExactly(g, added);
      if t !in g.woken {
        FreedBySetting(g, added, t);
      }
    case Sync(task, added, _, _) =>
      SetFreesExactly(g, added);
      if t !in g.woken {
        FreedBySetting(g, added, t);
      } else {
        assert WokenOk(g, t);
      }
    case WaitBits(_, _, _) =>
      assert WokenOk(g, t);
    case Expire(position) =>
      assert StillWaits(g, g.waiting[position]);
      UnpackPack(g.calls[g.waiting[position].task]);
    case _ =>
  }

  /** Task t is in its call in all the states from after step i up to step n. */
  ghost predicate InCallSince(g: Group, actions: seq<Action>, t: nat, i: nat, n: nat)
    requires Runs(g, actions) && n <= |actions|
  {
    forall j :: i < j <= n ==> t in GroupAt(g, actions, j).calls
  }

  lemma {:induction false} WhenFreed(g: Group, actions: seq<Action>, n: nat, t: nat) returns (i: nat)
    requires Inv(g) && g.woken == map[] && Runs(g, actions) && n <= |actions| && HasBeenFreed(GroupAt(g, actions, n), t)
    ensures i < n && t in GroupAt(g, actions, i).calls
    ensures GroupAt(g, actions, n).calls[t] == GroupAt(g, actions, i).calls[t]
    ensures FreesWith(GroupAt(g, actions, i), actions[i], t, GroupAt(g, actions, n).woken[t])
    ensures InCallSince(g, actions, t, i, n)
    decreases n
  {
    hide Inv, Runs, Enabled, Apply, FreesWith;
    if n == 0 {
      assert false;
    }
    hide GroupAt;
    StepAt(g, actions, n - 1);
    FreedByCall(GroupAt(g, actions, n - 1), actions[n - 1], t);
    if FreesWith(GroupAt(g, actions, n - 1), actions[n - 1], t, GroupAt(g, actions, n).woken[t]) {
      i := n - 1;
    } else {
      i := WhenFreed(g, actions, n - 1, t);
    }
  }

  /** Step m of the run appends the return with number p, by which the call of its task is over. */
  ghost predicate ReturnedBy(g: Group, actions: seq<Action>, m: nat, p: nat)
    requires Runs(g, actions)
  {
    && m < |actions| && |GroupAt(g, actions, m).outcomes| == p < |GroupAt(g, actions, m + 1).outcomes|
    && GroupAt(g, actions, m + 1).outcomes[p].task !in GroupAt(g, actions, m + 1).calls
  }

  lemma ReturnEndsCall(g: Group, action: Action)
    requires Inv(g) && Enabled(g, action) && Apply(g, action).outcomes != g.outcomes
    ensures |Apply(g, action).outcomes| == |g.outcomes| + 1
    ensures Apply(g, action).outcomes[|g.outcomes|].task !in Apply(g, action).calls
  {
    hide Satisfied, Inv;
  }

  lemma {:induction false} WhenReturned(g: Group, actions: seq<Action>, n: nat, p: nat) returns (m: nat)
    requires Inv(g) && Runs(g, actions) && n <= |actions| && |g.outcomes| <= p < |GroupAt(g, actions, n).outcomes|
    ensures m < n && ReturnedBy(g, actions, m, p)
    ensures GroupAt(g, actions, m + 1).outcomes[p] == GroupAt(g, actions, n).outcomes[p]
    decreases n
  {
    hide Inv, Runs, Enabled, Apply, Returns, Blocks;
    if n == 0 {
      assert false;
    }
    hide GroupAt;
    StepAt(g, actions, n - 1);
    var before := GroupAt(g, actions, n - 1);
    ReturnsExactly(before, actions[n - 1]);
    if p < |before.outcomes| {
      m := WhenReturned(g, actions, n - 1, p);
      assert GroupAt(g, actions, n).outcomes[p] == GroupAt(g, actions, n).outcomes[..|before.outcomes|][p];
    } else {
      m := n - 1;
      ReturnEndsCall(before, actions[n - 1]);
    }
  }

  lemma UsedAtOnce(g: Group, action: Action, r: Return, x: nat)
    requires Inv(g) && Enabled(g, action) && Returns(g, action, r) && Used(r, x) && !action.Resume?
    ensures TakesBit(g, action, r.task, x)
  {
    hide Inv, Fulfils, SetAfter;
  }

  lemma UsedWhenFreed(g: Group, action: Action, t: nat, value: Word, x: nat)
    requires Inv(g) && Enabled(g, action) && FreesWith(g, action, t, value)
    requires t in g.calls && g.calls[t].clear && x in g.calls[t].mask && x in value - CONTROL_BYTES
    ensures TakesBit(g, action, t, x)
  {
    hide Inv, Fulfils;
  }

  /** A return that has used bit x up goes back to the step that took it: the one by which the call returned, or an earlier
      one that freed its task, which has been in the call since. */
  lemma WhenTaken(g: Group, actions: seq<Action>, m: nat, p: nat, x: nat) returns (i: nat)
    requires Inv(g) && g.woken == map[] && Runs(g, actions) && ReturnedBy(g, actions, m, p)
    requires Used(GroupAt(g, actions, m + 1).outcomes[p], x)
    ensures i <= m && Takes(g, actions, i, GroupAt(g, actions, m + 1).outcomes[p].task, x)
    ensures InCallSince(g, actions, GroupAt(g, actions, m + 1).outcomes[p].task, i, m)
  {
    hide Inv, Runs, Enabled, Apply, GroupAt, TakesBit, FreesWith, Blocks;
    StepAt(g, actions, m);
    var before, r := GroupAt(g, actions, m), GroupAt(g, actions, m + 1).outcomes[p];
    ReturnsExactly(before, actions[m]);
    if actions[m].Resume? {
      i := WhenFreed(g, actions, m, r.task);
      StepAt(g, actions, i);
      UsedWhenFreed(GroupAt(g, actions, i), actions[i], r.task, before.woken[r.task], x);
    } else {
      i := m;
      UsedAtOnce(before, actions[m], r, x);
    }
  }

  /**
   * One event, one user. In every run, if two calls return without a time-out bits that hold x, and both had asked for x to
   * be cleared, then two tasks were freed by the same set, or x was set again after the first of them took it.
   */
  lemma BitIsUsedOnce(actions: seq<Action>, p: nat, q: nat, x: nat)
    requires Runs(NEW_GROUP, actions) && p < q < |After(NEW_GROUP, actions).outcomes|
    requires Used(After(NEW_GROUP, actions).outcomes[p], x) && Used(After(NEW_GROUP, actions).outcomes[q], x)
    ensures var r, s := After(NEW_GROUP, actions).outcomes[p], After(NEW_GROUP, actions).outcomes[q];
            exists i, j :: Takes(NEW_GROUP, actions, i, r.task, x) && Takes(NEW_GROUP, actions, j, s.task, x)
                           && (if i == j then r.task != s.task
                               else exists k :: (if i < j then i < k <= j else j < k <= i) && Sets(actions[k], x))
  {
    hide Runs, After, GroupAt, Takes, Sets;
    var g := NEW_GROUP;
    LastGroup(g, actions);
    var m := WhenReturned(g, actions, |actions|, p);
    var n := WhenReturned(g, actions, |actions|, q);
    var i := WhenTaken(g, actions, m, p, x);
    var j := WhenTaken(g, actions, n, q, x);
    var r, s := After(g, actions).outcomes[p], After(g, actions).outcomes[q];
    if i == j {
      Ordered(g, actions, m, n, p, q);
      assert r.task != s.task;
    } else if i < j {
      TakenOnce(g, actions, i, j, r.task, s.task, x);
    } else {
      TakenOnce(g, actions, j, i, s.task, r.task, x);
    }
  }

  /** Returns are appended in order. */
  lemma Ordered(g: Group, actions: seq<Action>, m: nat, n: nat, p: nat, q: nat)
    requires Inv(g) && Runs(g, actions) && ReturnedBy(g, actions, m, p) && ReturnedBy(g, actions, n, q) && p < q
    ensures m < n
  {
    hide Inv, Runs, Enabled, Apply, GroupAt;
    if n <= m {
      OutcomesGrow(g, actions, n, m);
      StepAt(g, actions, n);
    }
  }

  lemma {:induction false} OutcomesGrow(g: Group, actions: seq<Action>, n: nat, m: nat)
    requires Inv(g) && Runs(g, actions) && n <= m <= |actions|
    ensures |GroupAt(g, actions, n).outcomes| <= |GroupAt(g, actions, m).outcomes|
    decreases m
  {
    hide Inv, Runs, Enabled, Apply, GroupAt, Returns, Blocks;
    if n < m {
      OutcomesGrow(g, actions, n, m - 1);
      StepAt(g, actions, m - 1);
      ReturnsExactly(GroupAt(g, actions, m - 1), actions[m - 1]);
    }
  }
}
