/**
 * Software timers. Expiry instants are unbounded here; the daemon keeps those of the current lap of the tick counter in
 * one list and those of the next lap in another, and swaps the two when it sees that the counter has wrapped.
 */
module Timers {
  import opened Arithmetic

  /** `fires` counts the callbacks since the timer was last started, at instant `start`. */
  datatype Timer = Timer(period: nat, reload: bool, active: bool, start: nat, fires: nat)

  datatype Entry = Entry(id: nat, expiry: nat)

  datatype State = State(range: nat, now: nat, timers: seq<Timer>, current: seq<Entry>, overflow: seq<Entry>)

  function Lap(instant: nat, range: nat): nat
    requires range > 0
  {
    instant / range
  }

  // ----- the decision of prvInsertTimerInActiveList

  datatype Placing = ProcessNow | Current | Overflow

  /** All four arguments are tick counts or periods below the range; differences wrap. */
  function Place(nextExpiry: nat, timeNow: nat, commandTime: nat, period: nat, range: nat): Placing
    requires range > 0
  {
    if nextExpiry <= timeNow then
      if (timeNow - commandTime) % range >= period then ProcessNow else Overflow
    else if timeNow < commandTime && nextExpiry >= commandTime then ProcessNow
    else Current
  }

  function TruePlace(expiry: nat, now: nat, range: nat): Placing
    requires range > 0
  {
    if expiry <= now then ProcessNow
    else if Lap(expiry, range) == Lap(now, range) then Current
    else Overflow
  }

  lemma AgeFromTicks(c: nat, age: nat, range: nat)
    requires c < range && age < range
    ensures ((if c + age < range then c + age else c + age - range) - c) % range == age
  {
    if c + age < range {
      DivModUnique(age, range, 0, age);
    } else {
      DivModUnique(age - range, range, -1, age);
    }
  }

  /** From wrapped tick counts alone the right decision is made, if the command is less than one lap old. */
  lemma PlaceExact(command: nat, period: nat, now: nat, range: nat)
    requires 0 < period < range && command <= now < command + range
    ensures Place((command + period) % range, now % range, command % range, period, range)
         == TruePlace(command + period, now, range)
    ensures TruePlace(command + period, now, range) == Overflow ==>
              Lap(command + period, range) == Lap(now, range) + 1
  {
    var q, c, age := command / range, command % range, now - command;
    SplitFrom(command, age, range);
    SplitFrom(command, period, range);
    AgeFromTicks(c, age, range);
  }

  /** Where an instant less than a lap after another lies. */
  lemma SplitFrom(instant: nat, d: nat, range: nat)
    requires d < range
    ensures var q, c := instant / range, instant % range;
            && (instant + d) / range == (if c + d < range then q else q + 1)
            && (instant + d) % range == (if c + d < range then c + d else c + d - range)
  {
    var q, c := instant / range, instant % range;
    assert instant == q * range + c;
    if c + d < range {
      DivModUnique(instant + d, range, q, c + d);
    } else {
      DivModUnique(instant + d, range, q + 1, c + d - range);
    }
  }

  /** For a command of any age the timer is processed at once exactly if the age, less whole laps, reaches the period; so
      a command that is a lap or more old is misplaced exactly if that remainder is smaller. */
  lemma PlaceAnyAge(command: nat, period: nat, now: nat, range: nat)
    requires 0 < period < range && command <= now
    ensures Place((command + period) % range, now % range, command % range, period, range) == ProcessNow
            <==> (now - command) % range >= period
    ensures now >= command + range ==> TruePlace(command + period, now, range) == ProcessNow
  {
    var laps, rest := (now - command) / range, (now - command) % range;
    var recent := command + rest;
    assert now == laps * range + recent;
    DivModUnique(now, range, laps + recent / range, recent % range);
    PlaceExact(command, period, recent, range);
  }

  // ----- the lists

  /** vListInsert: in order of expiry, behind equal entries. */
  function Insert(list: seq<Entry>, e: Entry): seq<Entry> {
    if list == [] || list[0].expiry > e.expiry then [e] + list else [list[0]] + Insert(list[1..], e)
  }

  function Remove(list: seq<Entry>, id: nat): seq<Entry> {
    if list == [] then [] else if list[0].id == id then list[1..] else [list[0]] + Remove(list[1..], id)
  }

  predicate Known(s: State, id: nat) { id < |s.timers| }

  function Fire(s: State, id: nat): State
    requires Known(s, id)
  {
    s.(timers := s.timers[id := s.timers[id].(fires := s.timers[id].fires + 1)])
  }

  function Activate(s: State, id: nat, active: bool): State
    requires Known(s, id)
  {
    s.(timers := s.timers[id := s.timers[id].(active := active)])
  }

  function List(s: State, e: Entry): State
    requires s.range > 0
  {
    if Lap(e.expiry, s.range) == Lap(s.now, s.range) then s.(current := Insert(s.current, e))
    else s.(overflow := Insert(s.overflow, e))
  }

  // ----- processing, at the instant s.now

  /** prvReloadTimer: one callback for each further expiry that has passed, then a place in a list. */
  function Reload(s: State, id: nat, expired: nat): (s': State)
    requires Known(s, id) && s.timers[id].period > 0 && s.range > 0
    ensures |s'.timers| == |s.timers| && s'.range == s.range
    decreases if expired <= s.now then s.now - expired + 1 else 0
  {
    var next := expired + s.timers[id].period;
    if next <= s.now then Reload(Fire(s, id), id, next) else List(s, Entry(id, next))
  }

  /** What happens to a timer that has expired: another round, or the end of it; and the callback. */
  function Expired(s: State, id: nat, expiry: nat): (s': State)
    requires Known(s, id) && s.timers[id].period > 0 && s.range > 0
    ensures |s'.timers| == |s.timers| && s'.range == s.range
  {
    Fire(if s.timers[id].reload then Reload(s, id, expiry) else Activate(s, id, false), id)
  }

  ghost predicate WellFormed(s: State) {
    && s.range > 0
    && (forall id :: 0 <= id < |s.timers| ==> 0 < s.timers[id].period < s.range)
    && (forall e :: e in s.current ==> Known(s, e.id))
    && (forall e :: e in s.overflow ==> Known(s, e.id))
  }

  /** prvProcessExpiredTimer, for the first entry of the current list */
  function ProcessExpired(s: State): State
    requires WellFormed(s) && s.current != []
  {
    Expired(s.(current := s.current[1..]), s.current[0].id, s.current[0].expiry)
  }

  function EndOfLap(instant: nat, range: nat): nat
    requires range > 0
  {
    Lap(instant, range) * range + (range - 1)
  }

  /** At the end of a lap the next expiry of any timer belongs to the next lap. */
  lemma {:induction false} ReloadAtEnd(s: State, id: nat, expired: nat)
    requires WellFormed(s) && Known(s, id) && s.now == EndOfLap(s.now, s.range)
    ensures Reload(s, id, expired).current == s.current
    ensures WellFormed(Reload(s, id, expired))
    decreases if expired <= s.now then s.now - expired + 1 else 0
  {
    var next := expired + s.timers[id].period;
    if next <= s.now {
      ReloadAtEnd(Fire(s, id), id, next);
    } else {
      BeyondEnd(s.now, next, s.range);
      InsertKnown(s, s.overflow, Entry(id, next));
    }
  }

  lemma BeyondEnd(now: nat, instant: nat, range: nat)
    requires range > 0 && now == EndOfLap(now, range) && now < instant
    ensures Lap(instant, range) != Lap(now, range)
  {
    assert instant == Lap(instant, range) * range + instant % range;
  }

  lemma {:induction false} InsertKnown(s: State, list: seq<Entry>, x: Entry)
    requires Known(s, x.id) && forall e :: e in list ==> Known(s, e.id)
    ensures forall e :: e in Insert(list, x) ==> Known(s, e.id)
  {
    if list != [] {
      InsertKnown(s, list[1..], x);
    }
  }

  lemma ProcessAtEnd(s: State)
    requires WellFormed(s) && s.current != [] && s.now == EndOfLap(s.now, s.range)
    ensures WellFormed(ProcessExpired(s))
    ensures ProcessExpired(s).current == s.current[1..] && ProcessExpired(s).now == s.now
  {
    var rest, id, expiry := s.(current := s.current[1..]), s.current[0].id, s.current[0].expiry;
    assert s.current[0] in s.current;
    ReloadAtEnd(rest, id, expiry);
    ReloadKeepsNow(rest, id, expiry);
  }

  lemma {:induction false} ReloadKeepsNow(s: State, id: nat, expired: nat)
    requires WellFormed(s) && Known(s, id)
    ensures Reload(s, id, expired).now == s.now
    decreases if expired <= s.now then s.now - expired + 1 else 0
  {
    var next := expired + s.timers[id].period;
    if next <= s.now {
      ReloadKeepsNow(Fire(s, id), id, next);
    }
  }

  /** The loop of prvSwitchTimerLists: all timers left in the current list have expired by the end of the lap. */
  function Drain(s: State): (s': State)
    requires WellFormed(s) && s.now == EndOfLap(s.now, s.range)
    ensures WellFormed(s') && s'.current == [] && s'.now == s.now
    ensures |s'.timers| == |s.timers| && s'.range == s.range
    decreases |s.current|
  {
    if s.current == [] then s
    else
      ProcessAtEnd(s);
      Drain(ProcessExpired(s))
  }

  lemma EndIsEnd(instant: nat, range: nat)
    requires range > 0
    ensures EndOfLap(EndOfLap(instant, range), range) == EndOfLap(instant, range)
    ensures instant <= EndOfLap(instant, range) && Lap(EndOfLap(instant, range), range) == Lap(instant, range)
  {
    DivModUnique(EndOfLap(instant, range), range, instant / range, range - 1);
  }

  /** prvSampleTimeNow: a wrap since the last sample switches the lists. */
  function Sample(s: State, now: nat): (s': State)
    requires WellFormed(s)
    ensures WellFormed(s') && s'.now == now
    ensures |s'.timers| == |s.timers| && s'.range == s.range
  {
    if Lap(now, s.range) == Lap(s.now, s.range) then s.(now := now)
    else
      EndIsEnd(s.now, s.range);
      var drained := Drain(s.(now := EndOfLap(s.now, s.range)));
      drained.(current := drained.overflow, overflow := [], now := now)
  }

  // ----- the daemon's work

  datatype Action =
    | Turn(now: nat)
    | Start(id: nat, command: nat, now: nat)
    | Stop(id: nat, now: nat)
    | ChangePeriod(id: nat, period: nat, now: nat)

  /** Samples of the clock, and a command and its execution, are less than a lap apart. */
  ghost predicate Enabled(s: State, a: Action) {
    && WellFormed(s)
    && s.now <= a.now < s.now + s.range
    && match a
       case Turn(_) => true
       case Start(id, command, now) => Known(s, id) && command <= now < command + s.range
       case Stop(id, _) => Known(s, id)
       case ChangePeriod(id, period, _) => Known(s, id) && 0 < period < s.range
  }

  /** The daemon finds nothing to do: the first timer of the current list is not due. */
  predicate Blocks(s: State, now: nat)
    requires s.range > 0
  {
    Lap(now, s.range) == Lap(s.now, s.range) && (s.current == [] || s.current[0].expiry > now)
  }

  lemma {:induction false} RemoveMembers(list: seq<Entry>, id: nat)
    ensures forall e :: e in Remove(list, id) ==> e in list
  {
    if list != [] {
      RemoveMembers(list[1..], id);
    }
  }

  function Unlist(s: State, id: nat): (s': State)
    requires WellFormed(s)
    ensures WellFormed(s')
  {
    RemoveMembers(s.current, id);
    RemoveMembers(s.overflow, id);
    s.(current := Remove(s.current, id), overflow := Remove(s.overflow, id))
  }

  function Begin(s: State, id: nat, start: nat, period: nat): State
    requires Known(s, id)
  {
    s.(timers := s.timers[id := s.timers[id].(active := true, start := start, fires := 0, period := period)])
  }

  function Apply(s: State, a: Action): State
    requires Enabled(s, a)
  {
    match a
    case Turn(now) =>
      var sampled := Sample(s, now);
      if Lap(now, s.range) == Lap(s.now, s.range) && sampled.current != [] && sampled.current[0].expiry <= now then
        ProcessExpired(sampled)
      else sampled
    case Start(id, command, now) =>
      var period := s.timers[id].period;
      var begun := Begin(Sample(Unlist(s, id), now), id, command, period);
      if command + period <= now then Expired(begun, id, command + period)
      else List(begun, Entry(id, command + period))
    case Stop(id, now) => Activate(Sample(Unlist(s, id), now), id, false)
    case ChangePeriod(id, period, now) =>
      List(Begin(Sample(Unlist(s, id), now), id, now, period), Entry(id, now + period))
  }
}
