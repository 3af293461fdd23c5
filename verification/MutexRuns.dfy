/** The states that a run of mutex actions goes through, one after the other. */
module MutexRuns {
  import opened KernelList
  import opened MutexInheritance
  import opened MutexSafety
  import opened MutexAccount

  /** The state before action n of the run, or after its last action */
  ghost function StateAt(s: State, actions: seq<Action>, n: nat): State
    requires Runs(s, actions) && n <= |actions|
    decreases |actions|
  {
    if n == 0 then s else StateAt(Apply(s, actions[0]), actions[1..], n - 1)
  }

  lemma {:induction false} Step(s: State, actions: seq<Action>, n: nat)
    requires Runs(s, actions) && n < |actions|
    ensures Enabled(StateAt(s, actions, n), actions[n])
    ensures StateAt(s, actions, n + 1) == Apply(StateAt(s, actions, n), actions[n])
    decreases n
  {
    hide Possible, Apply;
    if n == 0 {
      assert StateAt(Apply(s, actions[0]), actions[1..], 0) == Apply(s, actions[0]);
    } else {
      Step(Apply(s, actions[0]), actions[1..], n - 1);
    }
  }

  lemma {:induction false} LastState(s: State, actions: seq<Action>)
    requires Runs(s, actions)
    ensures StateAt(s, actions, |actions|) == After(s, actions)
    decreases |actions|
  {
    hide Possible, Apply;
    if actions != [] {
      LastState(Apply(s, actions[0]), actions[1..]);
    }
  }

  lemma StateInv(s: State, actions: seq<Action>, n: nat)
    requires Initial(s) && Runs(s, actions) && n <= |actions|
    ensures AccountInv(StateAt(s, actions, n)) && Inv(StateAt(s, actions, n))
  {
    InitialAccount(s);
    StateAccount(s, actions, n);
    hide Inv, Runs;
  }

  lemma InitialAccount(s: State)
    requires Initial(s)
    ensures AccountInv(s)
  {
    InitialInv(s);
    hide Inv;
  }

  lemma {:induction false} StateAccount(s: State, actions: seq<Action>, n: nat)
    requires AccountInv(s) && Runs(s, actions) && n <= |actions|
    ensures AccountInv(StateAt(s, actions, n))
    decreases n
  {
    hide AccountInv, Apply;
    if n > 0 {
      StepAccount(s, actions[0]);
      StateAccount(Apply(s, actions[0]), actions[1..], n - 1);
    }
  }

  /** Actions change neither how many tasks and mutexes there are nor a base priority. */
  lemma Sizes(s: State, a: Action)
    requires Enabled(s, a)
    ensures var s' := Apply(s, a);
            && |s'.tasks| == |s.tasks| && |s'.mutexes| == |s.mutexes|
            && forall t :: 0 <= t < |s.tasks| ==> s'.tasks[t].base == s.tasks[t].base
  {
    hide Highest, Insert, RemoveFirst, HighestWaiting;
  }

  lemma {:induction false} RunSizes(s: State, actions: seq<Action>, n: nat)
    requires Runs(s, actions) && n <= |actions|
    ensures var e := StateAt(s, actions, n);
            && |e.tasks| == |s.tasks| && |e.mutexes| == |s.mutexes|
            && forall t :: 0 <= t < |s.tasks| ==> e.tasks[t].base == s.tasks[t].base
    decreases n
  {
    hide Apply;
    if n > 0 {
      Sizes(s, actions[0]);
      RunSizes(Apply(s, actions[0]), actions[1..], n - 1);
    }
  }
}
