/** Inheritance ends with its cause. A holder that has never held two mutexes at once is above its base priority only on
    account of a task that is still in its call for that mutex. */
module MutexAccount {
  import opened KernelList
  import opened MutexInheritance
  import opened MutexSafety

  /** Task t is in a call for m that has caused an inheritance, and takes it back if it has to leave empty-handed. */
  predicate Owes(s: State, t: nat, m: nat)
    requires t < |s.tasks|
  {
    match s.tasks[t].pc
    case Trying(k, _, inherited) => k == m && inherited
    case Deciding(k, inherited) => k == m && inherited
    case Blocked(k, inherited) => k == m && inherited
    case GivingUp(k, inherited) => k == m && inherited
    case Disinheriting(k) => k == m
    case _ => false
  }

  /** Task t waits for m, or has come too late to wait again, without being a reason for inheritance. */
  predicate Indifferent(s: State, t: nat, m: nat)
    requires t < |s.tasks|
  {
    s.tasks[t].pc == Blocked(m, false) || s.tasks[t].pc == Trying(m, false, true)
  }

  ghost predicate Accounted(s: State, m: nat, h: nat)
    requires h < |s.tasks|
  {
    && (forall t :: 0 <= t < |s.tasks| && Indifferent(s, t, m) ==> s.tasks[t].priority <= s.tasks[h].base)
    && (s.tasks[h].priority > s.tasks[h].base ==>
          exists t :: 0 <= t < |s.tasks| && Owes(s, t, m) && s.tasks[t].priority == s.tasks[h].priority)
  }

  ghost predicate AccountOk(s: State, m: nat)
    requires WellFormed(s) && m < |s.mutexes|
  {
    var h := s.mutexes[m].holder;
    h != NOBODY && s.tasks[h].single ==> Accounted(s, m, h)
  }

  ghost predicate CallOk(s: State, t: nat)
    requires t < |s.tasks|
  {
    && (s.tasks[t].pc.Trying? && s.tasks[t].pc.inherited ==> s.tasks[t].held == 0)
    && (s.tasks[t].held > 1 ==> !s.tasks[t].single)
  }

  ghost predicate AccountInv(s: State) {
    && Inv(s)
    && (forall t :: 0 <= t < |s.tasks| ==> CallOk(s, t))
    && (forall m :: 0 <= m < |s.mutexes| ==> AccountOk(s, m))
  }

  /** For mutex m nothing that matters has changed: the same holder at the same priorities, nobody newly indifferent, and
      whoever owed the holder's priority, without being indifferent, owes it still. */
  ghost predicate Unaffected(s: State, s': State, m: nat)
    requires WellFormed(s) && WellFormed(s') && m < |s.mutexes| && |s'.tasks| == |s.tasks| && |s'.mutexes| == |s.mutexes|
  {
    var h := s.mutexes[m].holder;
    && s'.mutexes[m].holder == h
    && (h != NOBODY && s'.tasks[h].single ==>
          && s.tasks[h].single && s'.tasks[h].base == s.tasks[h].base && s'.tasks[h].priority == s.tasks[h].priority
          && (forall t :: 0 <= t < |s.tasks| && Indifferent(s', t, m) ==>
                Indifferent(s, t, m) && s'.tasks[t].priority == s.tasks[t].priority)
          && (forall t :: 0 <= t < |s.tasks| && Owes(s, t, m) && !Indifferent(s, t, m) ==>
                Owes(s', t, m) && s'.tasks[t].priority == s.tasks[t].priority))
  }

  lemma UnaffectedKeeps(s: State, s': State, m: nat)
    requires WellFormed(s) && WellFormed(s') && m < |s.mutexes| && |s'.tasks| == |s.tasks| && |s'.mutexes| == |s.mutexes|
    requires AccountOk(s, m) && Unaffected(s, s', m)
    ensures AccountOk(s', m)
  {
    hide Owes, Indifferent;
    var h := s.mutexes[m].holder;
    if h != NOBODY && s'.tasks[h].single && s.tasks[h].priority > s.tasks[h].base {
      var t :| 0 <= t < |s.tasks| && Owes(s, t, m) && s.tasks[t].priority == s.tasks[h].priority;
      assert !Indifferent(s, t, m);
    }
  }

  /** A task moves within its calls, or into or out of one. */
  lemma GotoAccount(s: State, t: nat, pc: Pc)
    requires AccountInv(s) && t < |s.tasks| && Inv(Goto(s, t, pc)) && !pc.Blocked?
    requires pc.Trying? && pc.inherited ==> s.tasks[t].held == 0
    requires pc.Trying? && !pc.timeLeft && pc.inherited ==> pc.m < |s.mutexes| && s.mutexes[pc.m].holder == NOBODY
    requires forall m :: 0 <= m < |s.mutexes| && s.mutexes[m].holder != NOBODY && Owes(s, t, m) && !Indifferent(s, t, m) ==>
               Owes(Goto(s, t, pc), t, m)
    ensures AccountInv(Goto(s, t, pc))
  {
    hide Inv;
    var s' := Goto(s, t, pc);
    forall u | 0 <= u < |s'.tasks| ensures CallOk(s', u) {
      assert CallOk(s, u);
    }
    InvIsWellFormed(s);
    InvIsWellFormed(s');
    forall m | 0 <= m < |s'.mutexes| ensures AccountOk(s', m) {
      assert AccountOk(s, m);
      UnaffectedKeeps(s, s', m);
    }
  }

  lemma InvIsWellFormed(s: State)
    requires Inv(s)
    ensures WellFormed(s)
  {
  }

  /** Only one of two mutexes can have a holder that holds no other. */
  lemma OtherMutex(s: State, m: nat, k: nat)
    requires AccountInv(s) && m < |s.mutexes| && k < |s.mutexes| && m != k
    requires s.mutexes[m].holder == s.mutexes[k].holder != NOBODY
    ensures s.tasks[s.mutexes[m].holder].held >= 2 && !s.tasks[s.mutexes[m].holder].single
  {
    var h := s.mutexes[m].holder;
    if m < k { HoldsTwo(s.mutexes, m, k); } else { HoldsTwo(s.mutexes, k, m); }
    assert TaskOk(s, h) && CallOk(s, h);
  }

  lemma GrantAccount(s: State, t: nat, m: nat)
    requires AccountInv(s) && Highest(s, t) && m < |s.mutexes| && s.tasks[t].pc.Trying? && s.tasks[t].pc.m == m
    requires s.mutexes[m].holder == NOBODY
    ensures AccountInv(Grant(s, t, m))
  {
    var s' := Grant(s, t, m);
    GrantKeeps(s, t, m);
    TakerIsUrgent(s, t, m);
    assert TaskOk(s, t) && WaitersOk(s, m);
    hide HeldBy, UrgencyOk;
    forall u | 0 <= u < |s'.tasks| ensures CallOk(s', u) {
      assert CallOk(s, u);
    }
    forall k | 0 <= k < |s'.mutexes| ensures AccountOk(s', k) {
      assert AccountOk(s, k);
      if k == m {
        forall u | 0 <= u < |s'.tasks| && Indifferent(s', u, m) ensures s'.tasks[u].priority <= s.tasks[t].priority {
          if s.tasks[u].pc.Blocked? {
            var i :| 0 <= i < |s.mutexes[m].waiters| && s.mutexes[m].waiters[i] == u;
          }
        }
      } else {
        HolderHoldsSome(s, k);
        UnaffectedKeeps(s, s', k);
      }
    }
  }

  /** A task that holds a mutex is in no call of this kind. */
  lemma HolderOwesNothing(s: State, m: nat)
    requires AccountInv(s) && m < |s.mutexes| && s.mutexes[m].holder != NOBODY
    ensures var h := s.mutexes[m].holder;
            s.tasks[h].held > 0 && forall k :: 0 <= k < |s.mutexes| ==> !Owes(s, h, k) && !Indifferent(s, h, k)
  {
    HolderIsNotWaiting(s, m);
    assert TaskOk(s, s.mutexes[m].holder) && CallOk(s, s.mutexes[m].holder);
  }

  lemma HolderHoldsSome(s: State, k: nat)
    requires Inv(s) && k < |s.mutexes|
    ensures s.mutexes[k].holder != NOBODY ==> s.tasks[s.mutexes[k].holder].held >= 1
  {
    if s.mutexes[k].holder != NOBODY {
      HolderIsNotWaiting(s, k);
    }
  }

  lemma WaitAccount(s: State, t: nat, m: nat)
    requires AccountInv(s) && t < |s.tasks| && s.tasks[t].pc.Deciding? && s.tasks[t].pc.m == m
    requires s.mutexes[m].holder != NOBODY
    ensures AccountInv(Wait(s, t, m))
  {
    var s' := Wait(s, t, m);
    WaitKeeps(s, t, m);
    HolderOwesNothing(s, m);
    assert TaskOk(s, t);
    forall k | 0 <= k < |s'.mutexes| ensures AccountOk(s', k) {
      assert AccountOk(s, k);
      if k == m {
        WaiterIsAccounted(s, t, m);
      } else {
        WaitElsewhere(s, t, m, k);
      }
    }
    hide Inv, AccountOk, Insert;
    forall u | 0 <= u < |s'.tasks| ensures CallOk(s', u) {
      assert CallOk(s, u);
    }
  }

  lemma WaitElsewhere(s: State, t: nat, m: nat, k: nat)
    requires AccountInv(s) && t < |s.tasks| && s.tasks[t].pc.Deciding? && s.tasks[t].pc.m == m
    requires s.mutexes[m].holder != NOBODY && k < |s.mutexes| && k != m && WellFormed(Wait(s, t, m))
    requires s.tasks[t].held == 0
    ensures AccountOk(Wait(s, t, m), k)
  {
    hide TaskOk, WaitersOk, UrgencyOk, CallOk, Insert;
    HolderOwesNothing(s, m);
    if s.mutexes[k].holder == s.mutexes[m].holder {
      OtherMutex(s, m, k);
    }
    assert AccountOk(s, k);
    var s', g := Wait(s, t, m), s.mutexes[m].holder;
    assert !Owes(s, g, k) && !Indifferent(s, g, k) && !Indifferent(s', g, k);
    UnaffectedKeeps(s, s', k);
  }

  lemma WaiterIsAccounted(s: State, t: nat, m: nat)
    requires WellFormed(s) && t < |s.tasks| && m < |s.mutexes| && AccountOk(s, m)
    requires s.tasks[t].pc.Deciding? && s.tasks[t].pc.m == m && 0 <= s.mutexes[m].holder < |s.tasks|
    requires t != s.mutexes[m].holder && WellFormed(Wait(s, t, m))
    requires !Owes(s, s.mutexes[m].holder, m) && !Indifferent(s, s.mutexes[m].holder, m)
    ensures AccountOk(Wait(s, t, m), m)
  {
    hide Insert;
    var h, s' := s.mutexes[m].holder, Wait(s, t, m);
    if s.tasks[h].single {
      forall u | 0 <= u < |s'.tasks| && Indifferent(s', u, m) ensures s'.tasks[u].priority <= s'.tasks[h].base {
        if u != t {
          assert Indifferent(s, u, m);
        }
      }
      if s'.tasks[h].priority > s'.tasks[h].base {
        if s.tasks[h].priority < s.tasks[t].priority {
          assert Owes(s', t, m);
        } else {
          var u :| 0 <= u < |s.tasks| && Owes(s, u, m) && s.tasks[u].priority == s.tasks[h].priority;
          assert Owes(s', u, m) && s'.tasks[u].priority == s'.tasks[h].priority;
        }
      }
    }
  }

  lemma ExpireAccount(s: State, t: nat)
    requires AccountInv(s) && Possible(s, Expire(t))
    ensures AccountInv(Apply(s, Expire(t)))
  {
    var s' := Apply(s, Expire(t));
    ExpireKeeps(s, t);
    assert TaskOk(s, t);
    hide HeldBy, UrgencyOk, WaitersOk, RemoveFirst;
    forall u | 0 <= u < |s'.tasks| ensures CallOk(s', u) {
      assert CallOk(s, u);
    }
    forall k | 0 <= k < |s'.mutexes| ensures AccountOk(s', k) {
      assert AccountOk(s, k);
      UnaffectedKeeps(s, s', k);
    }
  }

  /** After a task has left for want of time, the holder is as high as its base or a task that still waits on account. */
  lemma DisinheritAccount(s: State, t: nat)
    requires AccountInv(s) && Enabled(s, Disinherit(t))
    ensures AccountInv(Apply(s, Disinherit(t)))
  {
    var s', m := Apply(s, Disinherit(t)), s.tasks[t].pc.m;
    ActionKeepsInv(s, Disinherit(t));
    if s.mutexes[m].holder != NOBODY {
      HolderOwesNothing(s, m);
    }
    hide HeldBy, UrgencyOk;
    forall u | 0 <= u < |s'.tasks| ensures CallOk(s', u) {
      assert CallOk(s, u);
    }
    forall k | 0 <= k < |s'.mutexes| ensures AccountOk(s', k) {
      assert AccountOk(s, k);
      if k == m {
        LoweredIsAccounted(s, t, m);
      } else {
        if s.mutexes[k].holder == s.mutexes[m].holder != NOBODY {
          OtherMutex(s, m, k);
        }
        UnaffectedKeeps(s, s', k);
      }
    }
  }

  lemma LoweredIsAccounted(s: State, t: nat, m: nat)
    requires AccountInv(s) && Enabled(s, Disinherit(t)) && s.tasks[t].pc.m == m && WellFormed(Apply(s, Disinherit(t)))
    ensures AccountOk(Apply(s, Disinherit(t)), m)
  {
    var s', h := Apply(s, Disinherit(t)), s.mutexes[m].holder;
    if h != NOBODY && s.tasks[h].single {
      HolderIsNotWaiting(s, m);
      assert WaitersOk(s, m) && AccountOk(s, m) && CallOk(s, h) && TaskOk(s, t);
      hide HeldBy, UrgencyOk;
      forall u | 0 <= u < |s'.tasks| && Indifferent(s', u, m) ensures s'.tasks[u].priority <= s'.tasks[h].base {
        assert Indifferent(s, u, m);
      }
      if s'.tasks[h].priority > s'.tasks[h].base {
        var w := s.mutexes[m].waiters[0];
        assert w in s.mutexes[m].waiters;
        assert !Indifferent(s, w, m);
        assert Owes(s', w, m) && s'.tasks[w].priority == s'.tasks[h].priority;
      }
    }
  }

  lemma GiveAccount(s: State, t: nat, m: nat)
    requires AccountInv(s) && Possible(s, Give(t, m))
    ensures AccountInv(Apply(s, Give(t, m)))
  {
    var s' := Apply(s, Give(t, m));
    GiveKeeps(s, t, m);
    GiveTasks(s, t, m);
    hide HeldBy, UrgencyOk, WaitersOk, WakeFirst, Freed;
    forall u | 0 <= u < |s'.tasks| ensures CallOk(s', u) {
      assert CallOk(s, u);
    }
    forall k | 0 <= k < |s'.mutexes| ensures AccountOk(s', k) {
      assert AccountOk(s, k);
      if k != m {
        if s.mutexes[k].holder == t {
          OtherMutex(s, m, k);
        }
        UnaffectedKeeps(s, s', k);
      }
    }
  }

  /** What a give changes of the tasks: the giver's count and priority, and the place of the first waiter. */
  lemma GiveTasks(s: State, t: nat, m: nat)
    requires AccountInv(s) && Possible(s, Give(t, m))
    ensures var s', waiters := Apply(s, Give(t, m)), s.mutexes[m].waiters;
            && |s'.tasks| == |s.tasks| && |s'.mutexes| == |s.mutexes| && s'.mutexes[m].holder == NOBODY
            && (forall k :: 0 <= k < |s.mutexes| && k != m ==> s'.mutexes[k] == s.mutexes[k])
            && s'.tasks[t] == Release(s.tasks[t])
            && (forall u :: 0 <= u < |s.tasks| && u != t && (waiters == [] || u != waiters[0]) ==>
                  s'.tasks[u] == s.tasks[u])
            && (waiters != [] ==> waiters[0] != t && waiters[0] < |s.tasks| && s.tasks[waiters[0]].pc.Blocked?
                                  && s.tasks[waiters[0]].pc.m == m && s.tasks[waiters[0]].held == 0
                                  && s'.tasks[waiters[0]] ==
                                     s.tasks[waiters[0]].(pc := Trying(m, true, s.tasks[waiters[0]].pc.inherited)))
  {
    var waiters := s.mutexes[m].waiters;
    assert WaitersOk(s, m);
    if waiters != [] {
      assert waiters[0] in waiters && TaskOk(s, waiters[0]);
    }
  }

  lemma StepAccount(s: State, a: Action)
    requires AccountInv(s) && Enabled(s, a)
    ensures AccountInv(Apply(s, a))
  {
    ActionKeepsInv(s, a);
    assert TaskOk(s, a.t) && CallOk(s, a.t);
    hide Inv, AccountOk, HeldBy;
    match a
    case Awake(t) => GotoAccount(s, t, Out);
    case Sleep(t) => GotoAccount(s, t, Asleep);
    case Call(t, m, timeLeft) => GotoAccount(s, t, Trying(m, timeLeft, false));
    case Take(t) =>
      var Trying(m, timeLeft, inherited) := s.tasks[t].pc;
      if s.mutexes[m].holder == NOBODY {
        GrantAccount(s, t, m);
      } else {
        GotoAccount(s, t, if timeLeft then Deciding(m, inherited) else Out);
      }
    case Suspend(t, expired) =>
      var Deciding(m, inherited) := s.tasks[t].pc;
      if expired {
        GotoAccount(s, t, GivingUp(m, inherited));
      } else if s.mutexes[m].holder == NOBODY {
        GotoAccount(s, t, Trying(m, true, inherited));
      } else {
        WaitAccount(s, t, m);
      }
    case Expire(t) => ExpireAccount(s, t);
    case GiveUp(t) =>
      var GivingUp(m, inherited) := s.tasks[t].pc;
      GotoAccount(s, t, if s.mutexes[m].holder == NOBODY then Trying(m, false, inherited)
                        else if inherited then Disinheriting(m) else Out);
    case Disinherit(t) => DisinheritAccount(s, t);
    case Give(t, m) => GiveAccount(s, t, m);
  }

  lemma {:induction false} RunKeepsAccount(s: State, actions: seq<Action>)
    requires AccountInv(s) && Runs(s, actions)
    ensures AccountInv(After(s, actions))
    decreases |actions|
  {
    hide AccountInv, Apply;
    if actions != [] {
      StepAccount(s, actions[0]);
      RunKeepsAccount(Apply(s, actions[0]), actions[1..]);
    }
  }

  /**
   * In every run: if a task that has not held two mutexes at once is above its base priority while it holds m, some task
   * with exactly that priority is still in a call for m that has caused the inheritance. So when no such call is left,
   * nothing is left of the inheritance.
   */
  lemma InheritanceIsAccountedFor(s: State, actions: seq<Action>, m: nat)
    requires Initial(s) && Runs(s, actions)
    requires m < |After(s, actions).mutexes| && 0 <= After(s, actions).mutexes[m].holder < |After(s, actions).tasks|
    ensures var e := After(s, actions);
            var h := e.mutexes[m].holder;
            e.tasks[h].single && e.tasks[h].priority > e.tasks[h].base ==>
              exists t :: 0 <= t < |e.tasks| && Owes(e, t, m) && e.tasks[t].priority == e.tasks[h].priority
  {
    InitialInv(s);
    assert AccountInv(s) by {
      hide Inv;
    }
    RunKeepsAccount(s, actions);
    hide Runs, After, Owes, Indifferent;
    assert AccountOk(After(s, actions), m);
  }
}
