/** The scheduler beside the mutexes: a running task that changes only when a switch is requested, or at a tick that
    reschedules. That the running task is the most urgent one is no assumption here. */
module MutexSchedule {
  import opened KernelList
  import opened MutexInheritance
  import opened MutexSafety
  import opened MutexYield

  datatype System = System(state: State, running: int)

  /** An action, by the running task or on its behalf by a tick, and the task that runs after it; or a switch alone. */
  datatype Event = Act(action: Action, next: int) | Reschedule(next: int)

  ghost predicate Idle(s: State) {
    forall t :: 0 <= t < |s.tasks| ==> !s.tasks[t].IsReady()
  }

  /** What vTaskSwitchContext selects: a ready task of the highest priority, or nobody if there is none. */
  ghost predicate Selects(s: State, next: int) {
    if next == NOBODY then Idle(s) else 0 <= next && Highest(s, next)
  }

  /** Where the source asks for a switch. Blocking and sleeping give the processor up; a task that is woken by a tick, or
      resumed, takes it over unless it is less urgent. */
  predicate SwitchRequested(s: State, a: Action, running: int)
    requires a.t < |s.tasks|
    requires a.Suspend? ==> s.tasks[a.t].pc.Deciding? && s.tasks[a.t].pc.m < |s.mutexes|
    requires a.Give? ==> a.mutex < |s.mutexes| && s.tasks[a.t].held > 0
                         && forall i :: 0 <= i < |s.mutexes[a.mutex].waiters| ==> s.mutexes[a.mutex].waiters[i] < |s.tasks|
  {
    match a
    case Give(t, m) => YieldRequested(s, t, m)
    case Sleep(_) => true
    case Suspend(t, expired) => !expired && s.mutexes[s.tasks[t].pc.m].holder != NOBODY
    case Awake(t) => Preempts(s, t, running)
    case Expire(t) => Preempts(s, t, running)
    case _ => false
  }

  predicate Preempts(s: State, t: nat, running: int)
    requires t < |s.tasks|
  {
    0 <= running < |s.tasks| ==> s.tasks[t].priority >= s.tasks[running].priority
  }

  /** The event can happen, and the running task changes exactly where a switch is requested. */
  ghost predicate Happens(sys: System, event: Event) {
    match event
    case Act(a, next) =>
      && Possible(sys.state, a) && (a.Awake? || a.Expire? || a.t == sys.running)
      && if SwitchRequested(sys.state, a, sys.running) then Selects(Apply(sys.state, a), next) else next == sys.running
    case Reschedule(next) => Selects(sys.state, next)
  }

  ghost function Next(sys: System, event: Event): System
    requires Happens(sys, event)
  {
    match event
    case Act(a, next) => System(Apply(sys.state, a), next)
    case Reschedule(next) => System(sys.state, next)
  }

  /** The running task is a most urgent one. */
  ghost predicate RunsHighest(sys: System) {
    Selects(sys.state, sys.running)
  }

  ghost predicate Misses(sys: System, event: Event)
    requires Happens(sys, event)
  {
    event.Act? && event.action.Give? && MissesSwitch(sys.state, event.action.t, event.action.mutex)
  }

  // ----- single events

  lemma HappensInTurn(sys: System, event: Event)
    requires RunsHighest(sys) && Happens(sys, event) && event.Act?
    ensures Enabled(sys.state, event.action)
  {
  }

  lemma GiveSchedule(sys: System, event: Event)
    requires Inv(sys.state) && RunsHighest(sys) && Happens(sys, event) && event.Act? && event.action.Give?
    ensures RunsHighest(Next(sys, event)) <==> !Misses(sys, event)
  {
    HappensInTurn(sys, event);
    var Give(t, m) := event.action;
    MissedYield(sys.state, t, m);
    ActionKeepsInv(sys.state, event.action);
    GiverIsReady(sys.state, t, m);
    hide Inv, Apply, YieldRequested, MissesSwitch;
  }

  lemma GiverIsReady(s: State, t: nat, m: nat)
    requires Inv(s) && Enabled(s, Give(t, m))
    ensures var s' := Apply(s, Give(t, m)); t < |s'.tasks| && s'.tasks[t].IsReady()
  {
    if s.mutexes[m].waiters != [] {
      assert WaitersOk(s, m) && s.mutexes[m].waiters[0] in s.mutexes[m].waiters;
    }
  }

  /** Every step but a give leaves a most urgent task running: the requested switches are enough. */
  lemma OtherSchedule(sys: System, event: Event)
    requires Inv(sys.state) && RunsHighest(sys) && Happens(sys, event) && !(event.Act? && event.action.Give?)
    ensures RunsHighest(Next(sys, event))
  {
    hide Inv, Insert, RemoveFirst, HighestWaiting;
    if event.Act? && event.action.Disinherit? {
      LoweredHolder(sys.state, event.action.t);
    }
  }

  /** Disinheriting after a time-out raises nobody, and does not touch the task that does it. */
  lemma LoweredHolder(s: State, t: nat)
    requires Inv(s) && Possible(s, Disinherit(t))
    ensures var s' := Apply(s, Disinherit(t));
            && |s'.tasks| == |s.tasks| && s'.tasks[t].priority == s.tasks[t].priority
            && forall u :: 0 <= u < |s.tasks| ==> s'.tasks[u].priority <= s.tasks[u].priority
  {
    var m := s.tasks[t].pc.m;
    assert TaskOk(s, t) && UrgencyOk(s, m);
    if s.mutexes[m].holder != NOBODY {
      HolderIsNotWaiting(s, m);
      assert TaskOk(s, s.mutexes[m].holder);
    }
    hide HeldBy;
  }

  /** With every requested switch carried out, the step keeps a most urgent task running exactly if it is not a give that
      misses its switch. */
  lemma ScheduleStep(sys: System, event: Event)
    requires Inv(sys.state) && RunsHighest(sys) && Happens(sys, event)
    ensures Inv(Next(sys, event).state)
    ensures RunsHighest(Next(sys, event)) <==> !Misses(sys, event)
  {
    hide Inv, RunsHighest, MissesSwitch;
    if event.Act? {
      HappensInTurn(sys, event);
      ActionKeepsInv(sys.state, event.action);
    }
    if event.Act? && event.action.Give? {
      GiveSchedule(sys, event);
    } else {
      OtherSchedule(sys, event);
    }
  }

  // ----- whole runs

  ghost predicate Honours(sys: System, events: seq<Event>)
    decreases |events|
  {
    events == [] || (Happens(sys, events[0]) && Honours(Next(sys, events[0]), events[1..]))
  }

  ghost function SystemAfter(sys: System, events: seq<Event>): System
    requires Honours(sys, events)
    decreases |events|
  {
    if events == [] then sys else SystemAfter(Next(sys, events[0]), events[1..])
  }

  ghost predicate AlwaysRunsHighest(sys: System, events: seq<Event>)
    requires Honours(sys, events)
    decreases |events|
  {
    RunsHighest(sys) && (events == [] || AlwaysRunsHighest(Next(sys, events[0]), events[1..]))
  }

  ghost predicate NeverMisses(sys: System, events: seq<Event>)
    requires Honours(sys, events)
    decreases |events|
  {
    events == [] || (!Misses(sys, events[0]) && NeverMisses(Next(sys, events[0]), events[1..]))
  }

  function Actions(events: seq<Event>): seq<Action> {
    if events == [] then [] else
    (match events[0] case Act(a, _) => [a] case Reschedule(_) => []) + Actions(events[1..])
  }

  ghost predicate Starts(sys: System) {
    Initial(sys.state) && sys.running == NOBODY
  }

  lemma {:induction false} SwitchesSuffice(sys: System, events: seq<Event>)
    requires Inv(sys.state) && RunsHighest(sys) && Honours(sys, events)
    ensures AlwaysRunsHighest(sys, events) <==> NeverMisses(sys, events)
    decreases |events|
  {
    hide Inv, RunsHighest, Misses, Happens, Next;
    if events != [] {
      ScheduleStep(sys, events[0]);
      if Misses(sys, events[0]) {
        var next := Next(sys, events[0]);
        assert !AlwaysRunsHighest(next, events[1..]);
      } else {
        SwitchesSuffice(Next(sys, events[0]), events[1..]);
      }
    }
  }

  /**
   * In every run that carries out every requested switch: the running task is a most urgent one in every state exactly if
   * no give in the run meets the condition under which it misses its switch.
   */
  lemma HighestRunsExactly(sys: System, events: seq<Event>)
    requires Starts(sys) && Honours(sys, events)
    ensures AlwaysRunsHighest(sys, events) <==> NeverMisses(sys, events)
  {
    InitialInv(sys.state);
    assert RunsHighest(sys);
    hide Inv, Honours, AlwaysRunsHighest, NeverMisses, RunsHighest;
    SwitchesSuffice(sys, events);
  }

  lemma {:induction false} ScheduledRun(sys: System, events: seq<Event>)
    requires Honours(sys, events) && AlwaysRunsHighest(sys, events)
    ensures Runs(sys.state, Actions(events))
    ensures After(sys.state, Actions(events)) == SystemAfter(sys, events).state
    decreases |events|
  {
    hide RunsHighest, SwitchRequested, Highest, Possible, Apply;
    if events != [] {
      var next := Next(sys, events[0]);
      ScheduledRun(next, events[1..]);
      if events[0].Act? {
        HappensInTurn(sys, events[0]);
        assert Actions(events)[1..] == Actions(events[1..]);
      } else {
        assert Actions(events) == Actions(events[1..]);
      }
    }
  }

  /**
   * So the assumption of `HoldersAreUrgent` can be had from the switches that the source requests: in every run that
   * carries them out, and in which no give misses its switch, each holder is as urgent as every task it keeps waiting.
   */
  lemma ScheduledHoldersAreUrgent(sys: System, events: seq<Event>, t: nat, m: nat)
    requires Starts(sys) && Honours(sys, events) && NeverMisses(sys, events)
    requires KeptWaiting(SystemAfter(sys, events).state, t, m)
    ensures var e := SystemAfter(sys, events).state; e.tasks[t].priority <= e.tasks[e.mutexes[m].holder].priority
  {
    hide Honours, AlwaysRunsHighest, NeverMisses, Runs, After, SystemAfter, Initial;
    HighestRunsExactly(sys, events);
    ScheduledRun(sys, events);
    HoldersAreUrgent(sys.state, Actions(events));
  }
}
