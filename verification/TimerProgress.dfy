/** The daemon catches up: taking turns at one instant, it soon has nothing left to do, and then every callback that has
    fallen due has been made. */
module TimerProgress {
  import opened Timers
  import opened TimerConservation

  function Entries(s: State): nat { |s.current| + |s.overflow| }

  /** How many entries are due at `now` */
  function DueCount(list: seq<Entry>, now: nat): (n: nat)
    ensures n <= |list|
  {
    if list == [] then 0 else (if list[0].expiry <= now then 1 else 0) + DueCount(list[1..], now)
  }

  function Repeated(now: nat, n: nat): seq<Action> { seq(n, _ => Turn(now)) }

  // ----- how the lists grow

  lemma {:induction false} InsertCounts(list: seq<Entry>, e: Entry, now: nat)
    ensures |Insert(list, e)| == |list| + 1
    ensures DueCount(Insert(list, e), now) == DueCount(list, now) + if e.expiry <= now then 1 else 0
  {
    if list == [] || list[0].expiry > e.expiry {
      assert ([e] + list)[1..] == list;
    } else {
      InsertCounts(list[1..], e, now);
      assert ([list[0]] + Insert(list[1..], e))[1..] == Insert(list[1..], e);
    }
  }

  /** Reloading adds one entry, and none that is due. */
  lemma {:induction false} ReloadCounts(s: State, id: nat, expired: nat)
    requires WellFormed(s) && Known(s, id)
    ensures Entries(Reload(s, id, expired)) == Entries(s) + 1
    ensures DueCount(Reload(s, id, expired).current, s.now) == DueCount(s.current, s.now)
    decreases if expired <= s.now then s.now - expired + 1 else 0
  {
    hide DueCount;
    var next := expired + s.timers[id].period;
    if next <= s.now {
      ReloadCounts(Fire(s, id), id, next);
    } else {
      InsertCounts(s.current, Entry(id, next), s.now);
      InsertCounts(s.overflow, Entry(id, next), s.now);
    }
  }

  lemma ProcessCounts(s: State)
    requires WellFormed(s) && s.current != []
    ensures Entries(ProcessExpired(s)) <= Entries(s)
    ensures s.current[0].expiry <= s.now ==> DueCount(ProcessExpired(s).current, s.now) == DueCount(s.current, s.now) - 1
  {
    var rest, id, expiry := s.(current := s.current[1..]), s.current[0].id, s.current[0].expiry;
    assert s.current[0] in s.current;
    ReloadCounts(rest, id, expiry);
    hide Reload;
  }

  lemma {:induction false} DrainCounts(s: State)
    requires WellFormed(s) && s.now == EndOfLap(s.now, s.range)
    ensures Entries(Drain(s)) <= Entries(s)
    decreases |s.current|
  {
    if s.current != [] {
      ProcessAtEnd(s);
      ProcessCounts(s);
      hide ProcessExpired, WellFormed, EndOfLap;
      DrainCounts(ProcessExpired(s));
    }
  }

  lemma SampleCounts(s: State, now: nat)
    requires WellFormed(s)
    ensures Entries(Sample(s, now)) <= Entries(s)
  {
    hide Lap;
    if Lap(now, s.range) != Lap(s.now, s.range) {
      EndIsEnd(s.now, s.range);
      hide EndOfLap, Drain;
      DrainCounts(s.(now := EndOfLap(s.now, s.range)));
    }
  }

  // ----- turns at one instant

  /** One turn at the instant of the last one processes the first due timer. */
  lemma TurnProcesses(s: State)
    requires Inv(s) && !Blocks(s, s.now)
    ensures Enabled(s, Turn(s.now)) && Apply(s, Turn(s.now)) == ProcessExpired(s)
    ensures Inv(ProcessExpired(s)) && ProcessExpired(s).now == s.now
    ensures DueCount(ProcessExpired(s).current, s.now) == DueCount(s.current, s.now) - 1
  {
    InvButWellFormed(s, {});
    ProcessKeeps(s, {});
    ProcessCounts(s);
    hide InvBut, ProcessExpired, DueCount, Lap;
    assert Sample(s, s.now) == s;
  }

  lemma {:induction false} Settles(s: State) returns (n: nat)
    requires Inv(s)
    ensures n <= DueCount(s.current, s.now)
    ensures Runs(s, Repeated(s.now, n))
    ensures var e := After(s, Repeated(s.now, n)); Inv(e) && e.range > 0 && e.now == s.now && Blocks(e, s.now)
    decreases DueCount(s.current, s.now)
  {
    if Blocks(s, s.now) {
      n := 0;
    } else {
      TurnProcesses(s);
      hide Inv, Apply, Enabled, ProcessExpired, DueCount;
      var fewer := Settles(ProcessExpired(s));
      n := fewer + 1;
      assert Repeated(s.now, n)[1..] == Repeated(s.now, fewer);
    }
  }

  lemma FirstTurn(s: State, now: nat)
    requires Inv(s) && Enabled(s, Turn(now))
    ensures Apply(s, Turn(now)).now == now && Entries(Apply(s, Turn(now))) <= Entries(s)
    ensures Inv(Apply(s, Turn(now)))
  {
    ActionKeepsInv(s, Turn(now));
    SampleKeeps(s, {}, now);
    SampleCounts(s, now);
    var sampled := Sample(s, now);
    hide Sample;
    if sampled.current != [] && sampled.current[0].expiry <= now {
      ProcessCounts(sampled);
      ProcessKeeps(sampled, {});
    }
  }

  lemma RunInv(s: State, actions: seq<Action>)
    requires Initial(s) && Runs(s, actions)
    ensures Inv(After(s, actions))
  {
    InitialInv(s);
    RunKeepsInv(s, actions);
  }

  /**
   * Progress. After any run, however far behind the daemon is, at most one turn more than there are entries in its lists
   * brings it to the point where it has nothing to do at instant `now`, and every active auto-reload timer that was
   * started at C with period p has then called back once for each instant C + kp that has passed.
   */
  lemma DaemonCatchesUp(s: State, actions: seq<Action>, now: nat) returns (n: nat)
    requires Initial(s) && Runs(s, actions) && Enabled(After(s, actions), Turn(now))
    ensures n <= Entries(After(s, actions)) + 1
    ensures Runs(After(s, actions), Repeated(now, n))
    ensures var e := After(After(s, actions), Repeated(now, n));
            && e.range > 0 && Blocks(e, now)
            && (forall id :: 0 <= id < |e.timers| && e.timers[id].active ==>
                  if e.timers[id].reload then Settled(e.timers[id], now)
                  else e.timers[id].fires == 0 && now < Due(e.timers[id]))
  {
    hide Inv, Apply, Enabled, DueCount, Blocks, Due, Past, Initial;
    RunInv(s, actions);
    var behind := After(s, actions);
    FirstTurn(behind, now);
    var first := Apply(behind, Turn(now));
    var rest := Settles(first);
    n := rest + 1;
    assert Repeated(now, n)[1..] == Repeated(now, rest);
    var e := After(first, Repeated(now, rest));
    assert After(behind, Repeated(now, n)) == e;
    forall id: nat | id < |e.timers| && e.timers[id].active
      ensures if e.timers[id].reload then Settled(e.timers[id], now) else e.timers[id].fires == 0 && now < Due(e.timers[id])
    {
      ActiveIsAhead(e, id, now);
    }
  }
}
