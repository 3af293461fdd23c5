/** Whether a raised holder is raised on somebody's account, for tasks that hold any number of mutexes: the steps by which
    an inheritance outlasts its cause, and those that make up for it. */
module MutexClaims {
  import opened KernelList
  import opened MutexInheritance
  import opened MutexSafety
  import opened MutexAccount
  import opened MutexRuns

  /** Task t is a reason for the holder of k to be raised: it is blocked on k, or its call for k has caused an inheritance
      that it has not taken back. */
  predicate Claims(s: State, t: nat, k: nat)
    requires t < |s.tasks|
  {
    (s.tasks[t].pc.Blocked? && s.tasks[t].pc.m == k) || Owes(s, t, k)
  }

  predicate Raised(s: State, h: nat)
    requires h < |s.tasks|
  {
    s.tasks[h].priority > s.tasks[h].base
  }

  /** Task t claims mutex k of h with just the priority that h has. */
  predicate Justifies(s: State, h: nat, t: nat, k: nat)
    requires h < |s.tasks|
  {
    t < |s.tasks| && k < |s.mutexes| && s.mutexes[k].holder == h && Claims(s, t, k)
    && s.tasks[t].priority == s.tasks[h].priority
  }

  ghost predicate AccountedFor(s: State, h: nat)
    requires h < |s.tasks|
  {
    Raised(s, h) ==> exists t, k :: Justifies(s, h, t, k)
  }

  // ----- single steps

  /** The step gives back, or times out on, the one mutex that h holds, and so lowers h. */
  predicate Lowers(s: State, a: Action, h: nat)
    requires h < |s.tasks|
  {
    s.tasks[h].held == 1 && Lets(s, a, h)
  }

  /** The step gives back a mutex of h, or ends a timed-out call for one. */
  predicate Lets(s: State, a: Action, h: nat) {
    match a
    case Give(t, _) => t == h
    case Disinherit(t) => t < |s.tasks| && s.tasks[t].pc.Disinheriting? && s.tasks[t].pc.m < |s.mutexes|
                          && s.mutexes[s.tasks[t].pc.m].holder == h
    case _ => false
  }

  /** With the step, task t is no more a reason for the holder of k to be raised: k is given back, t has taken its
      inheritance back or failed without doing so, or t has waited in vain without having caused one. */
  predicate Drops(s: State, a: Action, t: nat, k: nat)
    requires t < |s.tasks|
  {
    match a
    case Give(_, m) => m == k
    case Disinherit(u) => u == t
    case Take(u) => u == t && s.tasks[t].pc == Trying(k, false, true)
    case Expire(u) => u == t && s.tasks[t].pc == Blocked(k, false)
    case _ => false
  }

  /** h is raised on some account, the step takes away all there is of it, and does not lower h. */
  ghost predicate OutlastsItsCause(s: State, a: Action, h: nat)
    requires h < |s.tasks|
  {
    && Raised(s, h) && !Lowers(s, a, h)
    && (exists t, k :: Justifies(s, h, t, k))
    && (forall t, k :: Justifies(s, h, t, k) ==> Drops(s, a, t, k))
  }

  /** h is raised on nobody's account and the step makes up for it: it lowers h, a task that is no less urgent waits for
      a mutex of h, or h takes a mutex that a task of just its priority claims. */
  ghost predicate Restores(s: State, a: Action, h: nat)
    requires h < |s.tasks|
  {
    || Lowers(s, a, h)
    || (a.Suspend? && !a.expired && a.t < |s.tasks| && s.tasks[a.t].pc.Deciding? && s.tasks[a.t].pc.m < |s.mutexes|
        && s.mutexes[s.tasks[a.t].pc.m].holder == h && s.tasks[a.t].priority >= s.tasks[h].priority)
    || (a.Take? && a.t == h && s.tasks[h].pc.Trying? && s.tasks[h].pc.m < |s.mutexes|
        && s.mutexes[s.tasks[h].pc.m].holder == NOBODY
        && exists u :: 0 <= u < |s.tasks| && u != h && Claims(s, u, s.tasks[h].pc.m)
                       && s.tasks[u].priority == s.tasks[h].priority)
  }

  /** What a step must be like for h, short of making up for it: it leaves the priority of h alone, keeps the claims it
      does not drop, and adds none that would justify h. */
  ghost predicate KeepsClaims(s: State, a: Action, s': State, h: nat, t: nat, k: nat)
    requires h < |s.tasks|
  {
    && |s'.tasks| == |s.tasks| && s'.tasks[h].priority == s.tasks[h].priority && s'.tasks[h].base == s.tasks[h].base
    && (Justifies(s', h, t, k) <==> Justifies(s, h, t, k) && !Drops(s, a, t, k))
  }

  lemma GrantClaims(s: State, a: Action, h: nat, t: nat, k: nat)
    requires AccountInv(s) && Enabled(s, a) && h < |s.tasks| && a.Take? && !Restores(s, a, h)
    requires s.mutexes[s.tasks[a.t].pc.m].holder == NOBODY
    ensures KeepsClaims(s, a, Apply(s, a), h, t, k)
  {
    assert TaskOk(s, a.t) && CallOk(s, a.t);
    hide Inv, AccountOk;
    assert t < |s.tasks| && t != a.t ==> (Claims(Apply(s, a), t, k) <==> Claims(s, t, k));
  }

  lemma WaitClaims(s: State, a: Action, h: nat, t: nat, k: nat)
    requires AccountInv(s) && Enabled(s, a) && h < |s.tasks| && a.Suspend? && !a.expired && !Restores(s, a, h)
    requires s.mutexes[s.tasks[a.t].pc.m].holder != NOBODY
    ensures KeepsClaims(s, a, Apply(s, a), h, t, k)
  {
    hide Insert;
    var m := s.tasks[a.t].pc.m;
    HolderOwesNothing(s, m);
    HolderIsNotWaiting(s, m);
    assert TaskOk(s, a.t);
    hide Inv, AccountOk;
    var s', holder := Apply(s, a), s.mutexes[m].holder;
    assert h == holder ==> s.tasks[a.t].priority < s.tasks[h].priority;
    assert s'.tasks[h].priority == s.tasks[h].priority && s'.tasks[h].base == s.tasks[h].base;
    if t < |s.tasks| && t != a.t {
      assert s'.tasks[t].pc == s.tasks[t].pc && (t != holder ==> s'.tasks[t].priority == s.tasks[t].priority);
      assert Claims(s', t, k) <==> Claims(s, t, k);
      assert t == holder && k < |s.mutexes| ==> !Claims(s, t, k);
    } else if t == a.t {
      assert !Justifies(s, h, t, k) && !Justifies(s', h, t, k);
    }
  }

  lemma DisinheritClaims(s: State, a: Action, h: nat, t: nat, k: nat)
    requires AccountInv(s) && Enabled(s, a) && h < |s.tasks| && a.Disinherit? && !Restores(s, a, h)
    ensures KeepsClaims(s, a, Apply(s, a), h, t, k)
  {
    hide HighestWaiting;
    var m := s.tasks[a.t].pc.m;
    var s', holder := Apply(s, a), s.mutexes[m].holder;
    if holder != NOBODY {
      HolderOwesNothing(s, m);
      HolderIsNotWaiting(s, m);
    }
    hide Inv, AccountOk;
    assert s'.tasks[h].priority == s.tasks[h].priority && s'.tasks[h].base == s.tasks[h].base;
    if t < |s.tasks| && t != a.t {
      assert s'.tasks[t].pc == s.tasks[t].pc && (t != holder ==> s'.tasks[t].priority == s.tasks[t].priority);
      assert Claims(s', t, k) <==> Claims(s, t, k);
      assert t == holder && k < |s.mutexes| ==> !Claims(s, t, k);
    }
  }

  lemma GiveClaims(s: State, a: Action, h: nat, t: nat, k: nat)
    requires AccountInv(s) && Enabled(s, a) && h < |s.tasks| && a.Give? && !Restores(s, a, h)
    ensures KeepsClaims(s, a, Apply(s, a), h, t, k)
  {
    GiveTasks(s, a.t, a.mutex);
    hide Inv, AccountOk, WakeFirst, Freed;
  }

  lemma OtherClaims(s: State, a: Action, h: nat, t: nat, k: nat)
    requires AccountInv(s) && Enabled(s, a) && h < |s.tasks| && !a.Disinherit? && !a.Give?
    requires a.Take? ==> s.mutexes[s.tasks[a.t].pc.m].holder != NOBODY
    requires a.Suspend? && !a.expired ==> s.mutexes[s.tasks[a.t].pc.m].holder == NOBODY
    ensures KeepsClaims(s, a, Apply(s, a), h, t, k)
  {
    hide RemoveFirst, Inv, AccountOk;
  }

  lemma ClaimsStep(s: State, a: Action, h: nat, t: nat, k: nat)
    requires AccountInv(s) && Enabled(s, a) && h < |s.tasks| && !Restores(s, a, h)
    ensures KeepsClaims(s, a, Apply(s, a), h, t, k)
  {
    hide Inv, AccountInv, Apply, KeepsClaims, Restores;
    if a.Disinherit? {
      DisinheritClaims(s, a, h, t, k);
    } else if a.Give? {
      GiveClaims(s, a, h, t, k);
    } else if a.Take? && s.mutexes[s.tasks[a.t].pc.m].holder == NOBODY {
      GrantClaims(s, a, h, t, k);
    } else if a.Suspend? && !a.expired && s.mutexes[s.tasks[a.t].pc.m].holder != NOBODY {
      WaitClaims(s, a, h, t, k);
    } else {
      OtherClaims(s, a, h, t, k);
    }
  }

  lemma LoweredIsAccountedFor(s: State, a: Action, h: nat)
    requires AccountInv(s) && Enabled(s, a) && h < |s.tasks| && Lowers(s, a, h)
    ensures |Apply(s, a).tasks| == |s.tasks| && AccountedFor(Apply(s, a), h)
  {
    var s' := Apply(s, a);
    if a.Give? {
      GiveTasks(s, a.t, a.mutex);
    } else {
      var m := s.tasks[a.t].pc.m;
      HolderOwesNothing(s, m);
      assert WaitersOk(s, m);
      hide HeldBy, UrgencyOk, TaskOk, AccountOk;
      if Raised(s', h) {
        var w := s.mutexes[m].waiters[0];
        assert w in s.mutexes[m].waiters;
        assert Justifies(s', h, w, m);
      }
    }
  }

  lemma RestoredIsAccountedFor(s: State, a: Action, h: nat)
    requires AccountInv(s) && Enabled(s, a) && h < |s.tasks| && Restores(s, a, h)
    ensures |Apply(s, a).tasks| == |s.tasks| && AccountedFor(Apply(s, a), h)
  {
    var s' := Apply(s, a);
    if Lowers(s, a, h) {
      LoweredIsAccountedFor(s, a, h);
    } else if a.Suspend? {
      hide Insert;
      HolderIsNotWaiting(s, s.tasks[a.t].pc.m);
      hide Inv, AccountOk;
      assert Justifies(s', h, a.t, s.tasks[a.t].pc.m);
    } else {
      hide Inv, AccountOk;
      var m := s.tasks[h].pc.m;
      var u :| 0 <= u < |s.tasks| && u != h && Claims(s, u, m) && s.tasks[u].priority == s.tasks[h].priority;
      assert Justifies(s', h, u, m);
    }
  }

  lemma LoweringRestores(s: State, a: Action, h: nat)
    requires h < |s.tasks|
    ensures Lowers(s, a, h) ==> Restores(s, a, h)
  {
  }

  /** A step that makes up for a raised task drops no claim on it. */
  lemma RestoringDropsNothing(s: State, a: Action, h: nat, t: nat, k: nat)
    requires AccountInv(s) && Enabled(s, a) && h < |s.tasks| && Restores(s, a, h) && !Lowers(s, a, h)
    requires Justifies(s, h, t, k)
    ensures !Drops(s, a, t, k)
  {
    HolderOwesNothing(s, k);
    hide Inv, AccountOk;
  }

  /** A raised task comes to be so on nobody's account by just the steps that outlast their cause, and it stays so until
      just the steps that make up for it. */
  lemma AccountStepExactly(s: State, a: Action, h: nat)
    requires AccountInv(s) && Enabled(s, a) && h < |s.tasks|
    ensures |Apply(s, a).tasks| == |s.tasks|
    ensures AccountedFor(s, h) ==> (!AccountedFor(Apply(s, a), h) <==> OutlastsItsCause(s, a, h))
    ensures !AccountedFor(s, h) ==> (AccountedFor(Apply(s, a), h) <==> Restores(s, a, h))
  {
    hide AccountInv, Possible, Apply, Restores, Claims, Drops, Lowers;
    var s' := Apply(s, a);
    if Restores(s, a, h) {
      RestoredIsAccountedFor(s, a, h);
      forall t: nat, k: nat | Justifies(s, h, t, k) && !Lowers(s, a, h) ensures !Drops(s, a, t, k) {
        RestoringDropsNothing(s, a, h, t, k);
      }
    } else {
      ClaimsStep(s, a, h, 0, 0);
      forall t: nat, k: nat ensures Justifies(s', h, t, k) <==> Justifies(s, h, t, k) && !Drops(s, a, t, k) {
        ClaimsStep(s, a, h, t, k);
      }
      LoweringRestores(s, a, h);
    }
  }

  // ----- whole runs

  /** By action n the inheritance of h outlasts its cause, and no later action makes up for it. */
  ghost predicate DesertedSince(s: State, actions: seq<Action>, h: nat, n: nat)
    requires Runs(s, actions) && h < |s.tasks|
  {
    && n < |actions| && h < |StateAt(s, actions, n).tasks|
    && OutlastsItsCause(StateAt(s, actions, n), actions[n], h)
    && forall j :: n < j < |actions| ==>
         h < |StateAt(s, actions, j).tasks| && !Restores(StateAt(s, actions, j), actions[j], h)
  }

  lemma {:induction false} DesertedWhen(s: State, actions: seq<Action>, h: nat, n: nat) returns (i: nat)
    requires Initial(s) && Runs(s, actions) && h < |s.tasks| && n <= |actions|
    requires h < |StateAt(s, actions, n).tasks| && !AccountedFor(StateAt(s, actions, n), h)
    ensures i < n && h < |StateAt(s, actions, i).tasks| && OutlastsItsCause(StateAt(s, actions, i), actions[i], h)
    ensures forall j :: i < j < n ==>
              h < |StateAt(s, actions, j).tasks| && !Restores(StateAt(s, actions, j), actions[j], h)
    decreases n
  {
    hide Runs, Enabled, Apply, Inv, AccountInv, OutlastsItsCause, Restores;
    if n == 0 {
      assert false;
    }
    hide StateAt, AccountedFor;
    StateInv(s, actions, n - 1);
    Step(s, actions, n - 1);
    RunSizes(s, actions, n - 1);
    AccountStepExactly(StateAt(s, actions, n - 1), actions[n - 1], h);
    if AccountedFor(StateAt(s, actions, n - 1), h) {
      i := n - 1;
    } else {
      i := DesertedWhen(s, actions, h, n - 1);
    }
  }

  lemma {:induction false} DesertedUntil(s: State, actions: seq<Action>, h: nat, n: nat, e: nat)
    requires Initial(s) && Runs(s, actions) && h < |s.tasks| && n < e <= |actions|
    requires DesertedSince(s, actions, h, n)
    ensures h < |StateAt(s, actions, e).tasks| && !AccountedFor(StateAt(s, actions, e), h)
    decreases e
  {
    hide Runs, Enabled, Apply, Inv, AccountInv, OutlastsItsCause, Restores, StateAt, AccountedFor;
    StateInv(s, actions, e - 1);
    Step(s, actions, e - 1);
    RunSizes(s, actions, e - 1);
    if n < e - 1 {
      DesertedUntil(s, actions, h, n, e - 1);
    } else {
      DesertedWas(StateAt(s, actions, n), actions[n], h);
    }
    AccountStepExactly(StateAt(s, actions, e - 1), actions[e - 1], h);
  }

  lemma DesertedWas(s: State, a: Action, h: nat)
    requires h < |s.tasks| && OutlastsItsCause(s, a, h)
    ensures AccountedFor(s, h)
  {
  }

  /**
   * In every run: a task is above its base priority on nobody's account at the end exactly if at some step its
   * inheritance has outlasted its cause and no step since has made up for it.
   */
  lemma RaisedOnNobodysAccountExactly(s: State, actions: seq<Action>, h: nat)
    requires Initial(s) && Runs(s, actions) && h < |s.tasks|
    ensures h < |After(s, actions).tasks|
    ensures !AccountedFor(After(s, actions), h) <==> exists n :: DesertedSince(s, actions, h, n)
  {
    hide Runs, After, StateAt, Inv, AccountInv, AccountedFor, OutlastsItsCause, Restores;
    LastState(s, actions);
    RunSizes(s, actions, |actions|);
    if !AccountedFor(After(s, actions), h) {
      var n := DesertedWhen(s, actions, h, |actions|);
      assert DesertedSince(s, actions, h, n);
    } else {
      forall n ensures !DesertedSince(s, actions, h, n) {
        if DesertedSince(s, actions, h, n) {
          DesertedUntil(s, actions, h, n, |actions|);
          assert false;
        }
      }
    }
  }

  /** Only a task that has held two mutexes at once, since it last held none, is ever raised on nobody's account. */
  lemma SingleIsAccountedFor(s: State, h: nat)
    requires AccountInv(s) && h < |s.tasks| && s.tasks[h].single
    ensures AccountedFor(s, h)
  {
    assert TaskOk(s, h);
    if Raised(s, h) {
      var m := HeldMutex(s.mutexes, h);
      assert AccountOk(s, m);
      hide Inv;
      var t :| 0 <= t < |s.tasks| && Owes(s, t, m) && s.tasks[t].priority == s.tasks[h].priority;
      assert Justifies(s, h, t, m);
    }
  }

  lemma {:induction false} HeldMutex(mutexes: seq<Mutex>, h: nat) returns (m: nat)
    requires HeldBy(mutexes, h) > 0
    ensures m < |mutexes| && mutexes[m].holder == h
  {
    if mutexes[0].holder == h {
      m := 0;
    } else {
      var k := HeldMutex(mutexes[1..], h);
      m := k + 1;
    }
  }
}
