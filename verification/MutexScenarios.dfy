/** Three runs, each from tasks that are all asleep and with every requested switch carried out: the assertion in
    xQueueSemaphoreTake fails, an inheritance outlasts its cause, and a missed switch inverts priorities. */
module MutexScenarios {
  import opened MutexInheritance
  import opened MutexSafety
  import opened MutexAccount
  import opened MutexAssertion
  import opened MutexClaims
  import opened MutexYield
  import opened MutexSchedule

  // ----- putting runs together

  /** A run that carries out every requested switch, and in which no give misses its switch */
  ghost predicate Leads(a: System, events: seq<Event>, b: System) {
    Honours(a, events) && NeverMisses(a, events) && SystemAfter(a, events) == b
  }

  lemma {:induction false} Joined(a: System, first: seq<Event>, b: System, second: seq<Event>, c: System)
    requires Leads(a, first, b) && Leads(b, second, c)
    ensures Leads(a, first + second, c)
    decreases |first|
  {
    hide Happens, Next, Misses;
    if first == [] {
      assert first + second == second;
    } else {
      Joined(Next(a, first[0]), first[1..], b, second, c);
      assert (first + second)[1..] == first[1..] + second;
    }
  }

  lemma Stays(a: System)
    ensures Leads(a, [], a)
  {
  }

  /** One event more */
  lemma Then(a: System, events: seq<Event>, b: System, event: Event) returns (longer: seq<Event>, c: System)
    requires Leads(a, events, b) && Happens(b, event) && !Misses(b, event)
    ensures longer == events + [event] && c == Next(b, event) && Leads(a, longer, c)
  {
    longer, c := events + [event], Next(b, event);
    hide Happens, Next, Misses;
    assert [event][1..] == [];
    assert Honours(c, []) && Honours(b, [event]) && NeverMisses(b, [event]);
    assert SystemAfter(b, [event]) == SystemAfter(c, []);
    Joined(a, events, b, [event], c);
  }

  /** With no task ready, task t wakes up, calls for a mutex that is held, and blocks on it. */
  lemma Visit(s: State, t: nat, m: nat) returns (events: seq<Event>)
    requires WellFormed(s) && Idle(s) && t < |s.tasks| && m < |s.mutexes|
    requires s.tasks[t].pc.Asleep? && s.tasks[t].held == 0 && s.mutexes[m].holder != NOBODY
    ensures Leads(System(s, NOBODY), events, System(Wait(Goto(s, t, Deciding(m, false)), t, m), NOBODY))
  {
    hide Insert, Leads, SwitchRequested;
    var sys, c := System(s, NOBODY), System(Goto(s, t, Deciding(m, false)), t);
    var first := VisitInVain(s, t, m);
    WaitIdles(s, t, m);
    events, c := Then(sys, first, c, Act(Suspend(t, false), NOBODY));
  }

  lemma VisitInVain(s: State, t: nat, m: nat) returns (events: seq<Event>)
    requires WellFormed(s) && Idle(s) && t < |s.tasks| && m < |s.mutexes|
    requires s.tasks[t].pc.Asleep? && s.tasks[t].held == 0 && s.mutexes[m].holder != NOBODY
    ensures Leads(System(s, NOBODY), events, System(Goto(s, t, Deciding(m, false)), t))
  {
    hide Leads;
    var sys := System(s, NOBODY);
    Stays(sys);
    var s1, s2, s3;
    events, s1 := Then(sys, [], sys, Act(Awake(t), t));
    events, s2 := Then(sys, events, s1, Act(Call(t, m, true), t));
    assert s2.state == Goto(s, t, Trying(m, true, false));
    events, s3 := Then(sys, events, s2, Act(Take(t), t));
    assert s3.state == Goto(s, t, Deciding(m, false));
  }

  lemma WaitIdles(s: State, t: nat, m: nat)
    requires WellFormed(s) && Idle(s) && t < |s.tasks| && m < |s.mutexes| && s.mutexes[m].holder != NOBODY
    ensures var c := Goto(s, t, Deciding(m, false));
            && WellFormed(c) && Idle(Wait(c, t, m)) && SwitchRequested(c, Suspend(t, false), t)
  {
    hide Insert;
  }

  // ----- the assertion fails

  const THREE_ASLEEP: System := System(State(
    [Task(1, 1, 0, Asleep, true), Task(5, 5, 0, Asleep, true), Task(9, 9, 0, Asleep, true)], [Mutex(NOBODY, [])]), NOBODY)

  const HOLDER_ASLEEP: System := System(State(
    [Task(1, 1, 1, Asleep, true), Task(5, 5, 0, Asleep, true), Task(9, 9, 0, Asleep, true)], [Mutex(0, [])]), NOBODY)

  const ONE_WAITER: System := System(State(
    [Task(1, 5, 1, Asleep, true), Task(5, 5, 0, Blocked(0, true), true), Task(9, 9, 0, Asleep, true)],
    [Mutex(0, [1])]), NOBODY)

  const EXPIRED: System := System(State(
    [Task(1, 5, 1, Out, true), Task(5, 5, 0, Trying(0, true, true), true), Task(9, 9, 0, Asleep, true)],
    [Mutex(0, [])]), 1)

  const TIMED_OUT: System := System(State(
    [Task(1, 5, 1, Out, true), Task(5, 5, 0, GivingUp(0, true), true), Task(9, 9, 0, Asleep, true)], [Mutex(0, [])]), 1)

  const LATE: System := System(State(
    [Task(1, 1, 0, Out, true), Task(5, 5, 0, Trying(0, false, true), true), Task(9, 9, 0, Asleep, true)],
    [Mutex(NOBODY, [])]), 1)

  const OVERTAKEN: System := System(State(
    [Task(1, 1, 0, Out, true), Task(5, 5, 0, Trying(0, false, true), true), Task(9, 9, 1, Asleep, true)],
    [Mutex(2, [])]), 1)

  lemma HolderFallsAsleep() returns (events: seq<Event>)
    ensures Leads(THREE_ASLEEP, events, HOLDER_ASLEEP)
  {
    hide Leads;
    var s := THREE_ASLEEP;
    Stays(s);
    events, s := Then(THREE_ASLEEP, [], s, Act(Awake(0), 0));
    events, s := Then(THREE_ASLEEP, events, s, Act(Call(0, 0, true), 0));
    events, s := Then(THREE_ASLEEP, events, s, Act(Take(0), 0));
    events, s := Then(THREE_ASLEEP, events, s, Act(Sleep(0), NOBODY));
    assert s.state.tasks == HOLDER_ASLEEP.state.tasks && s.state.mutexes == HOLDER_ASLEEP.state.mutexes;
  }

  lemma WaiterBlocks() returns (events: seq<Event>)
    ensures Leads(HOLDER_ASLEEP, events, ONE_WAITER)
  {
    hide Leads;
    events := Visit(HOLDER_ASLEEP.state, 1, 0);
    var e := Wait(Goto(HOLDER_ASLEEP.state, 1, Deciding(0, false)), 1, 0);
    assert [1] + [] == [1];
    assert e.tasks == ONE_WAITER.state.tasks && e.mutexes == ONE_WAITER.state.mutexes;
  }

  lemma WaitExpires() returns (events: seq<Event>)
    ensures Leads(ONE_WAITER, events, EXPIRED)
  {
    hide Leads;
    var s := ONE_WAITER;
    Stays(s);
    events, s := Then(ONE_WAITER, [], s, Act(Awake(0), 0));
    assert [1][1..] == [];
    events, s := Then(ONE_WAITER, events, s, Act(Expire(1), 1));
    assert s.state.tasks == EXPIRED.state.tasks && s.state.mutexes == EXPIRED.state.mutexes;
  }

  lemma WaiterTimesOut() returns (events: seq<Event>)
    ensures Leads(EXPIRED, events, TIMED_OUT)
  {
    hide Leads;
    var s := EXPIRED;
    Stays(s);
    events, s := Then(EXPIRED, [], s, Act(Take(1), 1));
    events, s := Then(EXPIRED, events, s, Act(Suspend(1, true), 1));
    assert s.state.tasks == TIMED_OUT.state.tasks && s.state.mutexes == TIMED_OUT.state.mutexes;
  }

  lemma GivenWhileLate() returns (events: seq<Event>)
    ensures Leads(TIMED_OUT, events, LATE)
  {
    hide Leads;
    var s := TIMED_OUT;
    Stays(s);
    events, s := Then(TIMED_OUT, [], s, Reschedule(0));
    events, s := Then(TIMED_OUT, events, s, Act(Give(0, 0), 1));
    events, s := Then(TIMED_OUT, events, s, Act(GiveUp(1), 1));
    assert s.state.tasks == LATE.state.tasks && s.state.mutexes == LATE.state.mutexes;
  }

  lemma OvertakenWhileLate() returns (events: seq<Event>)
    ensures Leads(LATE, events, OVERTAKEN)
  {
    hide Leads;
    var s := LATE;
    Stays(s);
    events, s := Then(LATE, [], s, Act(Awake(2), 2));
    events, s := Then(LATE, events, s, Act(Call(2, 0, true), 2));
    events, s := Then(LATE, events, s, Act(Take(2), 2));
    events, s := Then(LATE, events, s, Act(Sleep(2), 1));
    assert s.state.tasks == OVERTAKEN.state.tasks && s.state.mutexes == OVERTAKEN.state.mutexes;
  }

  /** The assertion can fail: a call that has caused an inheritance runs out of time, finds the mutex free after all, and
      is overtaken before it can take it. */
  lemma AssertionCanFail()
    ensures Starts(THREE_ASLEEP)
    ensures exists events :: Leads(THREE_ASLEEP, events, OVERTAKEN) && Runs(THREE_ASLEEP.state, Actions(events))
                             && After(THREE_ASLEEP.state, Actions(events)) == OVERTAKEN.state
    ensures TriesLate(OVERTAKEN.state, 1, 0) && !NoInheritancePending(OVERTAKEN.state, 1)
  {
    hide Leads;
    var e1 := HolderFallsAsleep();
    var e2 := WaiterBlocks();
    var e3 := WaitExpires();
    var e4 := WaiterTimesOut();
    var e5 := GivenWhileLate();
    var e6 := OvertakenWhileLate();
    Joined(THREE_ASLEEP, e1, HOLDER_ASLEEP, e2, ONE_WAITER);
    Joined(THREE_ASLEEP, e1 + e2, ONE_WAITER, e3, EXPIRED);
    Joined(THREE_ASLEEP, e1 + e2 + e3, EXPIRED, e4, TIMED_OUT);
    Joined(THREE_ASLEEP, e1 + e2 + e3 + e4, TIMED_OUT, e5, LATE);
    Joined(THREE_ASLEEP, e1 + e2 + e3 + e4 + e5, LATE, e6, OVERTAKEN);
    LeadingRun(THREE_ASLEEP, e1 + e2 + e3 + e4 + e5 + e6, OVERTAKEN);
  }

  lemma LeadingRun(a: System, events: seq<Event>, b: System)
    requires Starts(a) && Leads(a, events, b)
    ensures Runs(a.state, Actions(events)) && After(a.state, Actions(events)) == b.state
  {
    HighestRunsExactly(a, events);
    ScheduledRun(a, events);
  }

  // ----- an inheritance outlasts its cause

  const FOUR_ASLEEP: System := System(State(
    [Task(1, 1, 0, Asleep, true), Task(5, 5, 0, Asleep, true), Task(4, 4, 0, Asleep, true), Task(0, 0, 0, Asleep, true)],
    [Mutex(NOBODY, []), Mutex(NOBODY, [])]), NOBODY)

  const ONE_TAKEN: System := System(State(
    [Task(1, 1, 1, Out, true), Task(5, 5, 0, Asleep, true), Task(4, 4, 0, Asleep, true), Task(0, 0, 0, Asleep, true)],
    [Mutex(0, []), Mutex(NOBODY, [])]), 0)

  const BOTH_TAKEN: System := System(State(
    [Task(1, 1, 2, Asleep, false), Task(5, 5, 0, Asleep, true), Task(4, 4, 0, Asleep, true), Task(0, 0, 0, Asleep, true)],
    [Mutex(0, []), Mutex(0, [])]), NOBODY)

  const LOW_WAITS: System := System(State(
    [Task(1, 1, 2, Asleep, false), Task(5, 5, 0, Asleep, true), Task(4, 4, 0, Asleep, true),
     Task(0, 0, 0, Blocked(0, false), true)], [Mutex(0, [3]), Mutex(0, [])]), NOBODY)

  const HIGH_WAITS: System := System(State(
    [Task(1, 5, 2, Asleep, false), Task(5, 5, 0, Blocked(1, true), true), Task(4, 4, 0, Asleep, true),
     Task(0, 0, 0, Blocked(0, false), true)], [Mutex(0, [3]), Mutex(0, [1])]), NOBODY)

  const ALL_WAIT: System := System(State(
    [Task(1, 5, 2, Asleep, false), Task(5, 5, 0, Blocked(1, true), true), Task(4, 4, 0, Blocked(1, true), true),
     Task(0, 0, 0, Blocked(0, false), true)], [Mutex(0, [3]), Mutex(0, [1, 2])]), NOBODY)

  const FIRST_GIVEN: System := System(State(
    [Task(1, 5, 1, Out, false), Task(5, 5, 0, Trying(1, true, true), true), Task(4, 4, 0, Blocked(1, true), true),
     Task(0, 0, 0, Blocked(0, false), true)], [Mutex(0, [3]), Mutex(NOBODY, [2])]), 0)

  lemma OneIsTaken() returns (events: seq<Event>)
    ensures Leads(FOUR_ASLEEP, events, ONE_TAKEN)
  {
    hide Leads;
    var s := FOUR_ASLEEP;
    Stays(s);
    events, s := Then(FOUR_ASLEEP, [], s, Act(Awake(0), 0));
    events, s := Then(FOUR_ASLEEP, events, s, Act(Call(0, 0, true), 0));
    events, s := Then(FOUR_ASLEEP, events, s, Act(Take(0), 0));
    assert s.state.tasks == ONE_TAKEN.state.tasks && s.state.mutexes == ONE_TAKEN.state.mutexes;
  }

  lemma BothAreTaken() returns (events: seq<Event>)
    ensures Leads(ONE_TAKEN, events, BOTH_TAKEN)
  {
    hide Leads;
    var s := ONE_TAKEN;
    Stays(s);
    events, s := Then(ONE_TAKEN, [], s, Act(Call(0, 1, false), 0));
    events, s := Then(ONE_TAKEN, events, s, Act(Take(0), 0));
    events, s := Then(ONE_TAKEN, events, s, Act(Sleep(0), NOBODY));
    assert s.state.tasks == BOTH_TAKEN.state.tasks && s.state.mutexes == BOTH_TAKEN.state.mutexes;
  }

  lemma ThreeBlock() returns (events: seq<Event>)
    ensures Leads(BOTH_TAKEN, events, ALL_WAIT)
  {
    hide Leads;
    var e1 := LowBlocks();
    var e2 := HighBlocks();
    var e3 := MiddleBlocks();
    Joined(BOTH_TAKEN, e1, LOW_WAITS, e2, HIGH_WAITS);
    Joined(BOTH_TAKEN, e1 + e2, HIGH_WAITS, e3, ALL_WAIT);
    events := e1 + e2 + e3;
  }

  lemma LowBlocks() returns (events: seq<Event>)
    ensures Leads(BOTH_TAKEN, events, LOW_WAITS)
  {
    hide Leads;
    events := Visit(BOTH_TAKEN.state, 3, 0);
    var e := Wait(Goto(BOTH_TAKEN.state, 3, Deciding(0, false)), 3, 0);
    assert [3] + [] == [3];
    assert e.tasks == LOW_WAITS.state.tasks && e.mutexes == LOW_WAITS.state.mutexes;
  }

  lemma HighBlocks() returns (events: seq<Event>)
    ensures Leads(LOW_WAITS, events, HIGH_WAITS)
  {
    hide Leads;
    events := Visit(LOW_WAITS.state, 1, 1);
    var e := Wait(Goto(LOW_WAITS.state, 1, Deciding(1, false)), 1, 1);
    assert [1] + [] == [1];
    assert e.tasks == HIGH_WAITS.state.tasks && e.mutexes == HIGH_WAITS.state.mutexes;
  }

  lemma MiddleBlocks() returns (events: seq<Event>)
    ensures Leads(HIGH_WAITS, events, ALL_WAIT)
  {
    hide Leads;
    events := Visit(HIGH_WAITS.state, 2, 1);
    var s := HIGH_WAITS.state;
    var e := Wait(Goto(s, 2, Deciding(1, false)), 2, 1);
    assert Insert(Inherit(Goto(s, 2, Deciding(1, false)), 0, 2), [1], 2) == [1, 2];
    assert e.tasks == ALL_WAIT.state.tasks && e.mutexes == ALL_WAIT.state.mutexes;
  }

  lemma FirstIsGiven() returns (events: seq<Event>)
    ensures Leads(ALL_WAIT, events, FIRST_GIVEN)
  {
    hide Leads;
    var s := ALL_WAIT;
    Stays(s);
    events, s := Then(ALL_WAIT, [], s, Act(Awake(0), 0));
    assert [1, 2][1..] == [2];
    events, s := Then(ALL_WAIT, events, s, Act(Give(0, 1), 0));
    assert s.state.tasks == FIRST_GIVEN.state.tasks && s.state.mutexes == FIRST_GIVEN.state.mutexes;
  }

  lemma TwoMutexRun() returns (events: seq<Event>)
    ensures Starts(FOUR_ASLEEP) && Leads(FOUR_ASLEEP, events, FIRST_GIVEN)
  {
    hide Leads;
    var e1 := OneIsTaken();
    var e2 := BothAreTaken();
    var e3 := ThreeBlock();
    var e4 := FirstIsGiven();
    Joined(FOUR_ASLEEP, e1, ONE_TAKEN, e2, BOTH_TAKEN);
    Joined(FOUR_ASLEEP, e1 + e2, BOTH_TAKEN, e3, ALL_WAIT);
    Joined(FOUR_ASLEEP, e1 + e2 + e3, ALL_WAIT, e4, FIRST_GIVEN);
    events := e1 + e2 + e3 + e4;
  }

  /** A task can stay above its base priority on nobody's account: it has given back the one of its two mutexes that was
      waited for by an urgent task, and keeps what it inherited until it gives back the other. */
  lemma InheritanceOutlastsItsCause()
    ensures Starts(FOUR_ASLEEP)
    ensures exists events :: Leads(FOUR_ASLEEP, events, FIRST_GIVEN) && Runs(FOUR_ASLEEP.state, Actions(events))
                             && After(FOUR_ASLEEP.state, Actions(events)) == FIRST_GIVEN.state
    ensures !AccountedFor(FIRST_GIVEN.state, 0)
  {
    hide Leads;
    var events := TwoMutexRun();
    LeadingRun(FOUR_ASLEEP, events, FIRST_GIVEN);
  }

  // ----- a missed switch inverts priorities

  const BOTH_GIVEN: System := System(State(
    [Task(1, 1, 0, Out, false), Task(5, 5, 0, Trying(1, true, true), true), Task(4, 4, 0, Blocked(1, true), true),
     Task(0, 0, 0, Trying(0, true, false), true)], [Mutex(NOBODY, []), Mutex(NOBODY, [2])]), 0)

  const INVERTED: System := System(State(
    [Task(1, 1, 1, Out, true), Task(5, 5, 0, Trying(1, true, true), true), Task(4, 4, 0, Blocked(1, true), true),
     Task(0, 0, 0, Trying(0, true, false), true)], [Mutex(NOBODY, []), Mutex(0, [2])]), 0)

  const SECOND_GIVE: Event := Act(Give(0, 0), 0)

  lemma SwitchIsMissed()
    ensures Happens(FIRST_GIVEN, SECOND_GIVE) && Misses(FIRST_GIVEN, SECOND_GIVE)
    ensures Next(FIRST_GIVEN, SECOND_GIVE) == BOTH_GIVEN && !RunsHighest(BOTH_GIVEN)
  {
    assert [3][1..] == [];
    var e := Apply(FIRST_GIVEN.state, Give(0, 0));
    assert e.tasks == BOTH_GIVEN.state.tasks && e.mutexes == BOTH_GIVEN.state.mutexes;
    assert BOTH_GIVEN.state.tasks[1].IsReady();
  }

  lemma TakesUnasked() returns (events: seq<Event>)
    ensures Leads(BOTH_GIVEN, events, INVERTED)
  {
    hide Leads;
    var s := BOTH_GIVEN;
    Stays(s);
    events, s := Then(BOTH_GIVEN, [], s, Act(Call(0, 1, true), 0));
    events, s := Then(BOTH_GIVEN, events, s, Act(Take(0), 0));
    assert s.state.tasks == INVERTED.state.tasks && s.state.mutexes == INVERTED.state.mutexes;
  }

  /**
   * The missed switch matters. Every requested switch is carried out; task 0 gives both its mutexes back, the second to a
   * task of low priority, which misses a switch. It goes on and takes the first again, over the heads of two more urgent
   * tasks, of which task 2 keeps waiting behind a holder that has not come up to it.
   */
  lemma MissedYieldInvertsPriorities()
    ensures Starts(FOUR_ASLEEP)
    ensures exists before, after ::
              && Leads(FOUR_ASLEEP, before, FIRST_GIVEN)
              && Happens(FIRST_GIVEN, SECOND_GIVE) && Misses(FIRST_GIVEN, SECOND_GIVE)
              && Leads(Next(FIRST_GIVEN, SECOND_GIVE), after, INVERTED)
    ensures KeptWaiting(INVERTED.state, 2, 1) && INVERTED.state.mutexes[1].holder == 0
    ensures INVERTED.state.tasks[2].priority > INVERTED.state.tasks[0].priority
  {
    hide Leads, Happens, Misses, Next;
    var before := TwoMutexRun();
    SwitchIsMissed();
    var after := TakesUnasked();
    assert Leads(Next(FIRST_GIVEN, SECOND_GIVE), after, INVERTED);
  }
}
