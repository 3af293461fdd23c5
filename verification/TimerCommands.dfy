/** What the commands to a timer decide: by when and how often it calls back, from the last command alone. */
module TimerCommands {
  import opened Arithmetic
  import opened Timers
  import opened TimerConservation

  /** What is left of the commands to one timer: nothing yet, a stop, or a start at an instant. */
  datatype Last = Never | Stopped | StartedAt(start: nat)

  function LastCommand(actions: seq<Action>, id: nat): Last
    decreases |actions|
  {
    if actions == [] then Never
    else
      match actions[|actions| - 1]
      case Start(k, command, _) => if k == id then StartedAt(command) else LastCommand(actions[..|actions| - 1], id)
      case ChangePeriod(k, _, now) => if k == id then StartedAt(now) else LastCommand(actions[..|actions| - 1], id)
      case Stop(k, _) => if k == id then Stopped else LastCommand(actions[..|actions| - 1], id)
      case Turn(_) => LastCommand(actions[..|actions| - 1], id)
  }

  /** The period the timer was created with, or was given last */
  function LastPeriod(period: nat, actions: seq<Action>, id: nat): nat
    decreases |actions|
  {
    if actions == [] then period
    else
      var last := actions[|actions| - 1];
      if last.ChangePeriod? && last.id == id then last.period else LastPeriod(period, actions[..|actions| - 1], id)
  }

  // ----- what the daemon's own work does to a timer

  /** An inactive timer stays as it is, an auto-reload timer counts callbacks, and a one-shot timer calls back once and is
      inactive then. */
  predicate Works(t: Timer, t': Timer) {
    && t'.period == t.period && t'.reload == t.reload && t'.start == t.start
    && (!t.active ==> t' == t)
    && (t.active && t.reload ==> t'.active)
    && (t.active && !t.reload ==> t' == t || (t'.fires == t.fires + 1 && !t'.active))
  }

  ghost predicate AllWork(s: State, s': State) {
    |s'.timers| == |s.timers| && forall k :: 0 <= k < |s.timers| ==> Works(s.timers[k], s'.timers[k])
  }

  lemma AllWorkOn(s: State, s': State, s'': State)
    requires AllWork(s, s') && AllWork(s', s'')
    ensures AllWork(s, s'')
  {
    forall k | 0 <= k < |s.timers| ensures Works(s.timers[k], s''.timers[k]) {
      assert Works(s.timers[k], s'.timers[k]) && Works(s'.timers[k], s''.timers[k]);
    }
  }

  lemma {:induction false} ReloadOnlyFires(s: State, id: nat, expired: nat)
    requires WellFormed(s) && Known(s, id)
    ensures var s' := Reload(s, id, expired);
            s'.timers == s.timers[id := s.timers[id].(fires := s'.timers[id].fires)]
    decreases if expired <= s.now then s.now - expired + 1 else 0
  {
    var next := expired + s.timers[id].period;
    if next <= s.now {
      ReloadOnlyFires(Fire(s, id), id, next);
    }
  }

  lemma ExpiredWorks(s: State, id: nat, expiry: nat)
    requires WellFormed(s) && Known(s, id) && s.timers[id].active
    ensures AllWork(s, Expired(s, id, expiry))
  {
    ReloadOnlyFires(s, id, expiry);
    hide Reload;
  }

  lemma ProcessWorks(s: State, out: set<nat>)
    requires InvBut(s, out) && s.current != []
    ensures WellFormed(s) && AllWork(s, ProcessExpired(s))
  {
    InvButWellFormed(s, out);
    assert s.current[0] in s.current && EntryOk(s, s.current[0], Lap(s.now, s.range));
    var detached := s.(current := s.current[1..]);
    assert WellFormed(detached);
    ExpiredWorks(detached, s.current[0].id, s.current[0].expiry);
    hide Expired;
  }

  lemma {:induction false} DrainWorks(s: State, out: set<nat>)
    requires WellFormed(s) && InvBut(s, out) && s.now == EndOfLap(s.now, s.range)
    ensures AllWork(s, Drain(s))
    decreases |s.current|
  {
    hide AllWork;
    if s.current != [] {
      ProcessAtEnd(s);
      DueByEnd(s, s.current[0]);
      ProcessKeeps(s, out);
      ProcessWorks(s, out);
      hide Due, Past, ListOk, TimerOk, ProcessExpired;
      DrainWorks(ProcessExpired(s), out);
      AllWorkOn(s, ProcessExpired(s), Drain(s));
    } else {
      NothingWorks(s, s);
    }
  }

  lemma NothingWorks(s: State, s': State)
    requires s'.timers == s.timers
    ensures AllWork(s, s')
  {
  }

  lemma SampleWorks(s: State, out: set<nat>, now: nat)
    requires WellFormed(s) && InvBut(s, out) && s.now <= now < s.now + s.range
    ensures AllWork(s, Sample(s, now))
  {
    if Lap(now, s.range) == Lap(s.now, s.range) {
      NothingWorks(s, Sample(s, now));
    } else {
      EndIsEnd(s.now, s.range);
      var end := s.(now := EndOfLap(s.now, s.range));
      AdvanceKeeps(s, out, end.now);
      DrainWorks(end, out);
      hide InvBut, Drain;
    }
  }

  lemma TurnWorks(s: State, now: nat)
    requires Inv(s) && Enabled(s, Turn(now))
    ensures AllWork(s, Apply(s, Turn(now)))
  {
    hide AllWork;
    SampleKeeps(s, {}, now);
    SampleWorks(s, {}, now);
    var sampled := Sample(s, now);
    hide Sample, TimerOk, ListOk, NotIn;
    if Lap(now, s.range) == Lap(s.now, s.range) && sampled.current != [] && sampled.current[0].expiry <= now {
      ProcessWorks(sampled, {});
      AllWorkOn(s, sampled, ProcessExpired(sampled));
    }
  }

  // ----- commands

  /** A command to timer id leaves all others to the daemon's work, and makes timer id as `timer` says, worked on or not. */
  lemma CommandWorks(s: State, id: nat, now: nat)
    requires Inv(s) && WellFormed(s) && Known(s, id) && s.now <= now < s.now + s.range
    ensures var sampled := Sample(Unlist(s, id), now);
            AllWork(s, sampled) && sampled.timers[id] == s.timers[id]
  {
    hide Sample, AllWork;
    UnlistKeeps(s, id);
    SampleWorks(Unlist(s, id), {id}, now);
    SampleKeeps(Unlist(s, id), {id}, now);
    NothingWorks(s, Unlist(s, id));
    AllWorkOn(s, Unlist(s, id), Sample(Unlist(s, id), now));
  }

  /** The timer that a command leaves, before the daemon works on it */
  predicate CommandGives(t: Timer, a: Action, t': Timer) {
    match a
    case Start(_, command, _) => t' == t.(active := true, start := command, fires := 0)
    case ChangePeriod(_, period, now) => t' == t.(active := true, start := now, fires := 0, period := period)
    case Stop(_, _) => t' == t.(active := false)
    case Turn(_) => t' == t
  }

  ghost predicate GivesAndWorks(t: Timer, a: Action, t': Timer) {
    exists u :: CommandGives(t, a, u) && Works(u, t')
  }

  lemma StartGives(s: State, id: nat, command: nat, now: nat)
    requires Inv(s) && Enabled(s, Start(id, command, now))
    ensures var s' := Apply(s, Start(id, command, now));
            && |s'.timers| == |s.timers| && GivesAndWorks(s.timers[id], Start(id, command, now), s'.timers[id])
            && forall k :: 0 <= k < |s.timers| && k != id ==> Works(s.timers[k], s'.timers[k])
  {
    CommandWorks(s, id, now);
    BegunKeeps(s, id, command, now);
    StartPlaces(s, id, command, now);
    var begun, expiry := Begun(s, id, command, now), command + s.timers[id].period;
    InvButWellFormed(begun, {id});
    ExpiredWorks(begun, id, expiry);
    assert CommandGives(s.timers[id], Start(id, command, now), begun.timers[id]);
    hide Sample, Unlist, Expired, InvBut, Apply, Due;
    assert Works(begun.timers[id], begun.timers[id]);
  }

  lemma ChangeGives(s: State, id: nat, period: nat, now: nat)
    requires Inv(s) && Enabled(s, ChangePeriod(id, period, now))
    ensures var s' := Apply(s, ChangePeriod(id, period, now));
            && |s'.timers| == |s.timers| && GivesAndWorks(s.timers[id], ChangePeriod(id, period, now), s'.timers[id])
            && forall k :: 0 <= k < |s.timers| && k != id ==> Works(s.timers[k], s'.timers[k])
  {
    CommandWorks(s, id, now);
    hide Sample, Unlist, InvBut;
    var t := Apply(s, ChangePeriod(id, period, now)).timers[id];
    assert CommandGives(s.timers[id], ChangePeriod(id, period, now), t) && Works(t, t);
  }

  lemma StopGives(s: State, id: nat, now: nat)
    requires Inv(s) && Enabled(s, Stop(id, now))
    ensures var s' := Apply(s, Stop(id, now));
            && |s'.timers| == |s.timers| && GivesAndWorks(s.timers[id], Stop(id, now), s'.timers[id])
            && forall k :: 0 <= k < |s.timers| && k != id ==> Works(s.timers[k], s'.timers[k])
  {
    CommandWorks(s, id, now);
    hide Sample, Unlist, InvBut;
    var t := Apply(s, Stop(id, now)).timers[id];
    assert CommandGives(s.timers[id], Stop(id, now), t) && Works(t, t);
  }

  predicate Concerns(a: Action, id: nat) { !a.Turn? && a.id == id }

  /** Any step: the command, if it is for this timer, and then what the daemon does to it on the way */
  lemma StepGives(s: State, a: Action, id: nat)
    requires Inv(s) && Enabled(s, a) && Known(s, id)
    ensures |Apply(s, a).timers| == |s.timers|
    ensures if Concerns(a, id) then GivesAndWorks(s.timers[id], a, Apply(s, a).timers[id])
            else Works(s.timers[id], Apply(s, a).timers[id])
  {
    hide Inv, Apply, GivesAndWorks, Works;
    match a
    case Turn(now) => TurnWorks(s, now);
    case Start(k, command, now) => StartGives(s, k, command, now);
    case Stop(k, now) => StopGives(s, k, now);
    case ChangePeriod(k, period, now) => ChangeGives(s, k, period, now);
  }

  // ----- runs

  /** A timer as its last command has left it, but for the callbacks it has made */
  predicate Obeys(t: Timer, reload: bool, period: nat, last: Last) {
    && t.reload == reload && t.period == period
    && match last
       case Never => !t.active && t.fires == 0
       case Stopped => !t.active
       case StartedAt(start) =>
         && t.start == start
         && if t.reload then t.active else t.fires == if t.active then 0 else 1
  }

  lemma WorksObeys(t: Timer, t': Timer, reload: bool, period: nat, last: Last)
    requires Obeys(t, reload, period, last) && Works(t, t')
    ensures Obeys(t', reload, period, last)
  {
  }

  lemma {:induction false} RunObeys(s: State, actions: seq<Action>, id: nat)
    requires Initial(s) && Runs(s, actions) && Known(s, id)
    ensures var e := After(s, actions);
            && Known(e, id) && Inv(e)
            && Obeys(e.timers[id], s.timers[id].reload,
                     LastPeriod(s.timers[id].period, actions, id), LastCommand(actions, id))
    decreases |actions|
  {
    InitialInv(s);
    hide Inv, Enabled, Apply, Obeys, GivesAndWorks, Works;
    if actions == [] {
      NewObeys(s, id);
    } else {
      var n := |actions| - 1;
      LastStep(s, actions);
      RunObeys(s, actions[..n], id);
      var e, a := After(s, actions[..n]), actions[n];
      ActionKeepsInv(e, a);
      StepGives(e, a, id);
      var period, last := LastPeriod(s.timers[id].period, actions[..n], id), LastCommand(actions[..n], id);
      if Concerns(a, id) {
        CommandObeys(e.timers[id], a, Apply(e, a).timers[id], s.timers[id].reload, period, last);
      } else {
        WorksObeys(e.timers[id], Apply(e, a).timers[id], s.timers[id].reload, period, last);
      }
    }
  }

  lemma NewObeys(s: State, id: nat)
    requires Initial(s) && Known(s, id)
    ensures Obeys(s.timers[id], s.timers[id].reload, s.timers[id].period, Never)
  {
  }

  lemma CommandObeys(t: Timer, a: Action, t': Timer, reload: bool, period: nat, last: Last)
    requires Obeys(t, reload, period, last) && !a.Turn? && GivesAndWorks(t, a, t')
    ensures Obeys(t', reload, if a.ChangePeriod? then a.period else period,
                  if a.Stop? then Stopped else StartedAt(if a.Start? then a.command else a.now))
  {
  }

  lemma {:induction false} LastStep(s: State, actions: seq<Action>)
    requires Runs(s, actions) && actions != []
    ensures var n := |actions| - 1;
            && Runs(s, actions[..n]) && Enabled(After(s, actions[..n]), actions[n])
            && After(s, actions) == Apply(After(s, actions[..n]), actions[n])
    decreases |actions|
  {
    hide WellFormed, Apply;
    var n := |actions| - 1;
    if n == 0 {
      assert actions[..0] == [] && actions[1..] == [];
    } else {
      LastStep(Apply(s, actions[0]), actions[1..]);
      assert actions[1..][..n - 1] == actions[..n][1..];
    }
  }

  /**
   * The commands decide. After any run, where the daemon finds nothing to do at instant `now`: a timer whose last command
   * started it, or changed its period, at C has called back floor((now - C) / period) times if it reloads, and otherwise
   * once if a period has passed and not at all before; a timer that was stopped last, or never started, is inactive.
   */
  lemma CommandsDecideCallbacks(s: State, actions: seq<Action>, now: nat, id: nat)
    requires Initial(s) && Runs(s, actions) && Known(s, id)
    requires Enabled(After(s, actions), Turn(now)) && Blocks(After(s, actions), now)
    ensures Known(After(s, actions), id)
    ensures var t, period := After(s, actions).timers[id], LastPeriod(s.timers[id].period, actions, id);
            && period > 0
            && match LastCommand(actions, id)
               case StartedAt(start) =>
                 && start <= now
                 && t.fires == if s.timers[id].reload then (now - start) / period
                               else if now < start + period then 0 else 1
               case _ => !t.active
  {
    hide Inv, Runs, After, Obeys, Settled, Past, Due, Blocks, LastPeriod, LastCommand;
    RunObeys(s, actions, id);
    CallbacksAreConserved(s, actions, now);
    var e := After(s, actions);
    PeriodIsPositive(e, id);
    CallbacksOf(e.timers[id], s.timers[id].reload, LastPeriod(s.timers[id].period, actions, id),
                LastCommand(actions, id), now);
  }

  lemma PeriodIsPositive(s: State, id: nat)
    requires Inv(s) && Known(s, id)
    ensures s.timers[id].period > 0
  {
    assert TimerOk(s, id);
  }

  lemma CallbacksOf(t: Timer, reload: bool, period: nat, last: Last, now: nat)
    requires Obeys(t, reload, period, last) && t.period > 0 && Past(t) <= now
    requires t.active ==> if t.reload then Settled(t, now) else t.fires == 0 && now < Due(t)
    ensures period > 0
    ensures match last
            case StartedAt(start) =>
              start <= now && t.fires == if reload then (now - start) / period
                                         else if now < start + period then 0 else 1
            case _ => !t.active
  {
    if last.StartedAt? {
      if reload {
        CountFromSettled(t.start, t.fires, t.period, now);
        MulMono(0, t.fires, t.period);
      } else if t.fires == 0 {
        assert (t.fires + 1) * t.period == t.period;
      } else {
        assert t.fires * t.period == t.period;
      }
    }
  }

  lemma CountFromSettled(start: nat, fires: nat, period: nat, now: nat)
    requires period > 0 && start + fires * period <= now < start + (fires + 1) * period
    ensures (now - start) / period == fires
  {
    Spread(fires, 1, period);
    DivModUnique(now - start, period, fires, now - start - fires * period);
  }

  /** A timer that is inactive stays as it is, without a callback, until it is started or given a new period. */
  lemma {:induction false} InactiveStaysQuiet(s: State, actions: seq<Action>, id: nat)
    requires Inv(s) && Runs(s, actions) && Known(s, id) && !s.timers[id].active
    requires forall a <- actions :: Concerns(a, id) ==> a.Stop?
    ensures Known(After(s, actions), id) && After(s, actions).timers[id] == s.timers[id]
    decreases |actions|
  {
    hide Inv, Enabled, Apply;
    if actions != [] {
      assert actions[0] in actions;
      ActionKeepsInv(s, actions[0]);
      StepGives(s, actions[0], id);
      forall a | a in actions[1..] ensures a in actions {
      }
      InactiveStaysQuiet(Apply(s, actions[0]), actions[1..], id);
    }
  }
}
