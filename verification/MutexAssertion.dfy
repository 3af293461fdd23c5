/** The assertion in xQueueSemaphoreTake that a call which finds the mutex taken, with no time left, has caused no
    inheritance: when it holds and when it fails. */
module MutexAssertion {
  import opened KernelList
  import opened MutexInheritance
  import opened MutexSafety
  import opened MutexAccount
  import opened MutexRuns

  predicate NoInheritancePending(s: State, t: nat)
    requires t < |s.tasks| && s.tasks[t].pc.Trying? && s.tasks[t].pc.m < |s.mutexes|
  {
    s.mutexes[s.tasks[t].pc.m].holder == NOBODY || s.tasks[t].pc.timeLeft || !s.tasks[t].pc.inherited
  }

  /** Task t is about to try for m a last time, after a wait that had caused an inheritance. */
  predicate TriesLate(s: State, t: nat, m: nat) {
    t < |s.tasks| && m < |s.mutexes| && s.tasks[t].pc == Trying(m, false, true)
  }

  // ----- single steps

  /** A task comes to try late in one way only: its time has run out and it finds the mutex free after all. */
  lemma LateByGivingUp(s: State, a: Action, t: nat, m: nat)
    requires Inv(s) && Enabled(s, a) && TriesLate(Apply(s, a), t, m)
    ensures (TriesLate(s, t, m) && a.t != t) || (a == GiveUp(t) && s.mutexes[m].holder == NOBODY)
  {
    hide HeldBy, UrgencyOk, TaskOk;
    Sizes(s, a);
    if a.Give? && s.mutexes[a.mutex].waiters != [] {
      assert WaitersOk(s, a.mutex) && s.mutexes[a.mutex].waiters[0] in s.mutexes[a.mutex].waiters;
    }
    hide WaitersOk;
  }

  /** Task u takes the free mutex m. */
  ghost predicate Takes(s: State, a: Action, u: int, m: nat) {
    && a.Take? && a.t == u && u < |s.tasks| && m < |s.mutexes| && s.mutexes[m].holder == NOBODY
    && s.tasks[u].pc.Trying? && s.tasks[u].pc.m == m
  }

  /** A mutex comes into new hands by a take only, and only when it was free. */
  lemma HeldByTaking(s: State, a: Action, m: nat)
    requires Enabled(s, a) && m < |s.mutexes|
    ensures |Apply(s, a).mutexes| == |s.mutexes|
    ensures var h := Apply(s, a).mutexes[m].holder;
            h == NOBODY || h == s.mutexes[m].holder || Takes(s, a, h, m)
  {
  }

  // ----- whole runs

  /** Since action g, by which it gave up waiting and found m free, task t has been about to try for m a last time. */
  ghost predicate LateSince(s: State, actions: seq<Action>, t: nat, m: nat, g: nat)
    requires Runs(s, actions)
  {
    && g < |actions| && actions[g] == GiveUp(t)
    && m < |StateAt(s, actions, g).mutexes| && StateAt(s, actions, g).mutexes[m].holder == NOBODY
    && (forall i :: g < i < |actions| ==> actions[i].t != t)
    && (forall i :: g < i <= |actions| ==> TriesLate(StateAt(s, actions, i), t, m))
  }

  /** By action i another task has taken m, and it holds it until the end of the run. */
  ghost predicate TakenAndKept(s: State, actions: seq<Action>, t: nat, m: nat, i: nat)
    requires Runs(s, actions)
  {
    && i < |actions| && actions[i].t != t && Takes(StateAt(s, actions, i), actions[i], actions[i].t, m)
    && forall j :: i < j <= |actions| ==>
         m < |StateAt(s, actions, j).mutexes| && StateAt(s, actions, j).mutexes[m].holder == actions[i].t
  }

  lemma {:induction false} LateSinceWhen(s: State, actions: seq<Action>, t: nat, m: nat, n: nat) returns (g: nat)
    requires Initial(s) && Runs(s, actions) && n <= |actions| && TriesLate(StateAt(s, actions, n), t, m)
    ensures g < n && actions[g] == GiveUp(t)
    ensures m < |StateAt(s, actions, g).mutexes| && StateAt(s, actions, g).mutexes[m].holder == NOBODY
    ensures forall i :: g < i < n ==> actions[i].t != t
    ensures forall i :: g < i <= n ==> TriesLate(StateAt(s, actions, i), t, m)
    decreases n
  {
    hide Runs, Enabled, Apply, Inv, AccountInv;
    if n == 0 {
      assert false;
    }
    StateInv(s, actions, n - 1);
    Step(s, actions, n - 1);
    hide StateAt;
    LateByGivingUp(StateAt(s, actions, n - 1), actions[n - 1], t, m);
    RunSizes(s, actions, n - 1);
    RunSizes(s, actions, n);
    if TriesLate(StateAt(s, actions, n - 1), t, m) && actions[n - 1].t != t {
      g := LateSinceWhen(s, actions, t, m, n - 1);
    } else {
      g := n - 1;
    }
  }

  /** Between a state in which m is free and a later one in which it is held, the holder has taken it. */
  lemma {:induction false} TakenBetween(s: State, actions: seq<Action>, m: nat, g: nat, n: nat) returns (i: nat)
    requires Runs(s, actions) && g < n <= |actions| && m < |s.mutexes|
    requires |StateAt(s, actions, g).mutexes| == |StateAt(s, actions, n).mutexes| == |s.mutexes|
    requires StateAt(s, actions, g).mutexes[m].holder == NOBODY != StateAt(s, actions, n).mutexes[m].holder
    ensures g <= i < n
    ensures Takes(StateAt(s, actions, i), actions[i], StateAt(s, actions, n).mutexes[m].holder, m)
    ensures forall j :: i < j <= n ==>
              && m < |StateAt(s, actions, j).mutexes|
              && StateAt(s, actions, j).mutexes[m].holder == StateAt(s, actions, n).mutexes[m].holder
    decreases n
  {
    hide Runs, StateAt, Enabled, Apply;
    Step(s, actions, n - 1);
    RunSizes(s, actions, n - 1);
    HeldByTaking(StateAt(s, actions, n - 1), actions[n - 1], m);
    var h := StateAt(s, actions, n).mutexes[m].holder;
    if Takes(StateAt(s, actions, n - 1), actions[n - 1], h, m) {
      i := n - 1;
    } else {
      i := TakenBetween(s, actions, m, g, n - 1);
    }
  }

  /**
   * In every run, a task that is about to try without time left, after a wait that caused an inheritance, came there by
   * giving up its wait and finding the mutex free. The assertion then fails exactly if another task has taken the mutex
   * since and still holds it.
   */
  lemma AssertionFailsExactly(s: State, actions: seq<Action>, t: nat, m: nat)
    requires Initial(s) && Runs(s, actions) && TriesLate(After(s, actions), t, m)
    ensures exists g :: LateSince(s, actions, t, m, g)
    ensures forall g :: LateSince(s, actions, t, m, g) ==>
              (!NoInheritancePending(After(s, actions), t)
               <==> exists i :: g < i && TakenAndKept(s, actions, t, m, i))
  {
    hide Runs, After, StateAt;
    var e := After(s, actions);
    LastState(s, actions);
    var g0 := LateSinceWhen(s, actions, t, m, |actions|);
    assert LateSince(s, actions, t, m, g0);
    forall g | LateSince(s, actions, t, m, g)
      ensures !NoInheritancePending(e, t) <==> exists i :: g < i && TakenAndKept(s, actions, t, m, i)
    {
      RunSizes(s, actions, g);
      RunSizes(s, actions, |actions|);
      if e.mutexes[m].holder != NOBODY {
        var i := TakenBetween(s, actions, m, g, |actions|);
        assert i != g;
        assert TakenAndKept(s, actions, t, m, i);
      }
    }
  }

  // ----- what rules it out

  /** What a caller can see to: every other task that calls for m has a lower base priority than t, and calls while it
      holds nothing. */
  ghost predicate NoRivalCalls(s: State, a: Action, t: nat, m: nat) {
    a.Call? && a.mutex == m && a.t != t && a.t < |s.tasks| && t < |s.tasks| ==>
      s.tasks[a.t].base < s.tasks[t].base && s.tasks[a.t].held == 0
  }

  predicate InCall(s: State, u: nat, m: nat)
    requires u < |s.tasks|
  {
    !s.tasks[u].pc.Asleep? && !s.tasks[u].pc.Out? && s.tasks[u].pc.m == m
  }

  /** Every other task in a call for m is below t and holds nothing. */
  ghost predicate NoRivals(s: State, t: nat, m: nat) {
    t < |s.tasks| ==>
      forall u :: 0 <= u < |s.tasks| && u != t && InCall(s, u, m) ==>
        s.tasks[u].base < s.tasks[t].base && s.tasks[u].held == 0
  }

  /** A task comes into a call by calling, and while it is in the call its count of mutexes stays. */
  lemma InCallSince(s: State, a: Action, u: nat, m: nat)
    requires Inv(s) && Enabled(s, a) && u < |s.tasks|
    ensures |Apply(s, a).tasks| == |s.tasks|
    ensures InCall(Apply(s, a), u, m) ==>
              && Apply(s, a).tasks[u].held == s.tasks[u].held
              && (InCall(s, u, m) || (a.Call? && a.t == u && a.mutex == m))
  {
    hide HeldBy, UrgencyOk, TaskOk, Highest, Insert, RemoveFirst, HighestWaiting;
    if a.Give? && s.mutexes[a.mutex].waiters != [] {
      assert WaitersOk(s, a.mutex) && s.mutexes[a.mutex].waiters[0] in s.mutexes[a.mutex].waiters;
    }
    hide WaitersOk;
  }

  lemma NoRivalsStep(s: State, a: Action, t: nat, m: nat)
    requires Inv(s) && Enabled(s, a) && NoRivals(s, t, m) && NoRivalCalls(s, a, t, m)
    ensures NoRivals(Apply(s, a), t, m)
  {
    hide Inv, Possible, Apply, InCall;
    Sizes(s, a);
    forall u | 0 <= u < |s.tasks| && u != t && t < |s.tasks| && InCall(Apply(s, a), u, m)
      ensures s.tasks[u].base < s.tasks[t].base && Apply(s, a).tasks[u].held == 0
    {
      InCallSince(s, a, u, m);
    }
  }

  lemma {:induction false} NoRivalsAt(s: State, actions: seq<Action>, t: nat, m: nat, n: nat)
    requires Initial(s) && Runs(s, actions) && n <= |actions|
    requires forall i :: 0 <= i < |actions| ==> NoRivalCalls(StateAt(s, actions, i), actions[i], t, m)
    ensures NoRivals(StateAt(s, actions, n), t, m)
    decreases n
  {
    hide Runs, Enabled, Apply, Inv, AccountInv;
    if n == 0 {
      assert StateAt(s, actions, 0) == s;
    } else {
      hide StateAt, NoRivals;
      NoRivalsAt(s, actions, t, m, n - 1);
      StateInv(s, actions, n - 1);
      Step(s, actions, n - 1);
      NoRivalsStep(StateAt(s, actions, n - 1), actions[n - 1], t, m);
    }
  }

  /** A task below t cannot take a mutex while t is ready. */
  lemma NoTakeBelow(s: State, a: Action, t: nat, m: nat)
    requires Inv(s) && Enabled(s, a) && NoRivals(s, t, m) && TriesLate(s, t, m) && a.t != t
    ensures !Takes(s, a, a.t, m)
  {
    assert TaskOk(s, t) && TaskOk(s, a.t);
  }

  /** The assertion never fails for a task whose rivals for the mutex all have lower base priorities and never call for it
      while they hold another. */
  lemma NeverFailsWithoutRivals(s: State, actions: seq<Action>, t: nat, m: nat)
    requires Initial(s) && Runs(s, actions)
    requires var e := After(s, actions);
             t < |e.tasks| && m < |e.mutexes| && e.tasks[t].pc.Trying? && e.tasks[t].pc.m == m
    requires forall i :: 0 <= i < |actions| ==> NoRivalCalls(StateAt(s, actions, i), actions[i], t, m)
    ensures NoInheritancePending(After(s, actions), t)
  {
    hide Runs, After, StateAt, Inv, AccountInv, Enabled, NoRivals, NoRivalCalls, Takes;
    if !TriesLate(After(s, actions), t, m) {
      return;
    }
    AssertionFailsExactly(s, actions, t, m);
    var g :| LateSince(s, actions, t, m, g);
    forall i | g < i ensures !TakenAndKept(s, actions, t, m, i) {
      if TakenAndKept(s, actions, t, m, i) {
        Step(s, actions, i);
        StateInv(s, actions, i);
        NoRivalsAt(s, actions, t, m, i);
        NoTakeBelow(StateAt(s, actions, i), actions[i], t, m);
      }
    }
  }
}
