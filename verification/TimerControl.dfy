/**
 * The timer daemon's data as timers.c keeps it: tick counts that wrap, and two lists of wrapped expiry times. The ghost
 * field `model` has the unbounded instants; every method is proved to do to it what `Timers` says.
 */
module TimerControl {
  import opened Arithmetic
  import opened Timers
  import opened TimerConservation

  datatype Item = Item(id: nat, value: nat)

  /** vListInsert by wrapped value */
  function InsertValue(list: seq<Item>, item: Item): seq<Item> {
    if list == [] || list[0].value > item.value then [item] + list else [list[0]] + InsertValue(list[1..], item)
  }

  function RemoveItem(list: seq<Item>, id: nat): seq<Item> {
    if list == [] then [] else if list[0].id == id then list[1..] else [list[0]] + RemoveItem(list[1..], id)
  }

  function Wrap(e: Entry, range: nat): Item
    requires range > 0
  {
    Item(e.id, e.expiry % range)
  }

  function WrapAll(list: seq<Entry>, range: nat): seq<Item>
    requires range > 0
  {
    if list == [] then [] else [Wrap(list[0], range)] + WrapAll(list[1..], range)
  }

  lemma {:induction false} WrapAllParts(list: seq<Entry>, range: nat)
    requires range > 0
    ensures |WrapAll(list, range)| == |list|
    ensures list != [] ==> WrapAll(list, range)[0] == Wrap(list[0], range)
                           && WrapAll(list, range)[1..] == WrapAll(list[1..], range)
  {
    if list != [] {
      WrapAllParts(list[1..], range);
    }
  }

  lemma WrappedOrder(a: nat, b: nat, range: nat)
    requires range > 0 && Lap(a, range) == Lap(b, range)
    ensures a > b <==> a % range > b % range
  {
    assert a == Lap(a, range) * range + a % range;
    assert b == Lap(b, range) * range + b % range;
  }

  /** In one lap the order of wrapped values is the order of instants. */
  lemma {:induction false} InsertWraps(list: seq<Entry>, e: Entry, range: nat, lap: nat)
    requires range > 0 && Lap(e.expiry, range) == lap
    requires forall f :: f in list ==> Lap(f.expiry, range) == lap
    ensures WrapAll(Insert(list, e), range) == InsertValue(WrapAll(list, range), Wrap(e, range))
  {
    WrapAllParts(list, range);
    WrapAllParts(Insert(list, e), range);
    if list != [] {
      assert list[0] in list;
      WrappedOrder(list[0].expiry, e.expiry, range);
      if list[0].expiry > e.expiry {
        assert Insert(list, e)[1..] == list;
      } else {
        assert Insert(list, e)[1..] == Insert(list[1..], e);
        InsertWraps(list[1..], e, range, lap);
      }
    } else {
      assert Insert(list, e)[1..] == [];
    }
  }

  lemma {:induction false} RemoveWraps(list: seq<Entry>, id: nat, range: nat)
    requires range > 0
    ensures WrapAll(Remove(list, id), range) == RemoveItem(WrapAll(list, range), id)
  {
    WrapAllParts(list, range);
    if list != [] {
      RemoveWraps(list[1..], id, range);
      if list[0].id != id {
        assert Remove(list, id)[1..] == Remove(list[1..], id);
        WrapAllParts(Remove(list, id), range);
      }
    }
  }

  /** The fields of a timer that the daemon keeps; `Timer` has its history as well. */
  datatype Block = Block(period: nat, reload: bool, active: bool)

  function BlockOf(timer: Timer): Block { Block(timer.period, timer.reload, timer.active) }

  class Daemon {
    const range: nat
    var timers: seq<Block>
    var currentTimerList: seq<Item>
    var overflowTimerList: seq<Item>
    var lastTime: nat
    ghost var model: State

    ghost predicate Linked()
      reads this
    {
      && range > 0 && range == model.range
      && |timers| == |model.timers|
      && (forall id :: 0 <= id < |timers| ==> timers[id] == BlockOf(model.timers[id]))
      && currentTimerList == WrapAll(model.current, range)
      && overflowTimerList == WrapAll(model.overflow, range)
    }

    ghost predicate Valid()
      reads this
    {
      Linked() && Inv(model) && lastTime == model.now % range
    }

    /** Timers of the given periods and kinds, none of them active */
    constructor (timers: seq<Block>, range: nat)
      requires range > 0
      requires forall id :: 0 <= id < |timers| ==> 0 < timers[id].period < range && !timers[id].active
      ensures Valid() && Initial(model) && this.timers == timers && this.range == range && model.now == 0
    {
      this.range, this.timers := range, timers;
      currentTimerList, overflowTimerList, lastTime := [], [], 0;
      model := State(range, 0, seq(|timers|, i requires 0 <= i < |timers| =>
                                 Timer(timers[i].period, timers[i].reload, timers[i].active, 0, 0)), [], []);
      new;
      DivModUnique(0, range, 0, 0);
      forall id: nat | Known(model, id) ensures TimerOk(model, id) {
      }
    }

    /** The timer's callback function, of which only the count is kept */
    ghost method Callback(id: nat)
      requires Linked() && id < |timers|
      modifies this`model
      ensures Linked() && model == Fire(old(model), id)
    {
      model := Fire(model, id);
    }

    /** vListInsert */
    static method ListInsert(list: seq<Item>, item: Item) returns (r: seq<Item>)
      ensures r == InsertValue(list, item)
    {
      var at := 0;
      while at < |list| && list[at].value <= item.value
        invariant 0 <= at <= |list|
        invariant forall i :: 0 <= i < at ==> list[i].value <= item.value
      {
        at := at + 1;
      }
      InsertValuePlace(list, item, at);
      r := list[..at] + [item] + list[at..];
    }

    /** prvInsertTimerInActiveList, for the timer whose expiry is `period` after the instant `command` */
    method InsertTimerInActiveList(id: nat, nextExpiryTime: nat, timeNow: nat, commandTime: nat, ghost command: nat,
        ghost out: set<nat>)
      returns (processTimerNow: bool)
      requires Linked() && InvBut(model, out) && id in out && id < |timers|
      requires command <= model.now < command + range
      requires timeNow == model.now % range && commandTime == command % range
      requires nextExpiryTime == (command + timers[id].period) % range
      modifies this`currentTimerList, this`overflowTimerList, this`model
      ensures Linked()
      ensures processTimerNow <==> command + timers[id].period <= model.now
      ensures processTimerNow ==> model == old(model)
      ensures !processTimerNow ==> model == List(old(model), Entry(id, command + timers[id].period))
    {
      ghost var e := Entry(id, command + timers[id].period);
      hide InsertValue, WrapAll, Insert, InvBut;
      PeriodsOk(model, out, id);
      PlaceExact(command, timers[id].period, model.now, range);
      processTimerNow := false;
      var item := Item(id, nextExpiryTime);
      if nextExpiryTime <= timeNow {
        if (timeNow - commandTime) % range >= timers[id].period {
          processTimerNow := true;
        } else {
          InsertOverflowWraps(model, out, e);
          overflowTimerList := ListInsert(overflowTimerList, item);
          model := List(model, e);
        }
      } else {
        if timeNow < commandTime && nextExpiryTime >= commandTime {
          processTimerNow := true;
        } else {
          InsertCurrentWraps(model, out, e);
          currentTimerList := ListInsert(currentTimerList, item);
          model := List(model, e);
        }
      }
    }

    /** The timer's last expiry was at `instant`, and that callback is still to come. */
    ghost predicate Catching(id: nat, time: nat, timeNow: nat, instant: nat, out: set<nat>)
      reads this
    {
      && Linked() && WellFormed(model) && InvBut(model, out) && id in out && id < |timers|
      && instant == Due(model.timers[id]) <= model.now < instant + range
      && timeNow == model.now % range && time == instant % range
    }

    /** The loop test of prvReloadTimer: `due` if the next expiry has passed as well, otherwise the timer is listed. */
    method TryNext(id: nat, time: nat, timeNow: nat, ghost instant: nat, ghost out: set<nat>) returns (due: bool)
      requires Catching(id, time, timeNow, instant, out)
      modifies this`currentTimerList, this`overflowTimerList, this`model
      ensures Linked()
      ensures due <==> instant + timers[id].period <= old(model).now
      ensures model == if due then old(model) else Reload(old(model), id, instant)
    {
      hide InvBut, WrapAll, Due;
      ModOfSum(instant, timers[id].period, range);
      due := InsertTimerInActiveList(id, (time + timers[id].period) % range, timeNow, time, instant, out);
    }

    /** The loop body: the expiry time moves on, and the callback for it is made. */
    method Advance(id: nat, time: nat, timeNow: nat, ghost instant: nat, ghost out: set<nat>) returns (next: nat)
      requires Catching(id, time, timeNow, instant, out) && instant + timers[id].period <= model.now
      modifies this`model
      ensures id < |timers| && timers[id].period == old(timers[id].period)
      ensures Catching(id, next, timeNow, instant + timers[id].period, out)
      ensures WellFormed(old(model)) && Reload(old(model), id, instant) == Reload(model, id, instant + timers[id].period)
      ensures model.now == old(model).now
    {
      hide InvBut, WrapAll, Due, Past, List, Lap;
      PeriodsOk(model, out, id);
      ghost var timer := model.timers[id];
      FireMoves(timer);
      TimerChangeKeeps(model, out, id, timer.(fires := timer.fires + 1));
      ModOfSum(instant, timers[id].period, range);
      next := (time + timers[id].period) % range;
      Callback(id);
      assert WellFormed(model);
    }

    /** prvReloadTimer */
    method ReloadTimer(id: nat, expiredTime: nat, timeNow: nat, ghost expired: nat, ghost out: set<nat>)
      requires Catching(id, expiredTime, timeNow, expired, out)
      modifies this`timers, this`currentTimerList, this`overflowTimerList, this`model
      ensures Linked() && model == Reload(old(model), id, expired)
    {
      hide InvBut, WrapAll, Due, List, Reload;
      var time: nat, instant: nat := expiredTime, expired;
      ghost var target := Reload(model, id, expired);
      var due := TryNext(id, time, timeNow, instant, out);
      while due
        invariant due ==> Catching(id, time, timeNow, instant, out) && instant + timers[id].period <= model.now
        invariant due ==> Reload(model, id, instant) == target
        invariant !due ==> Linked() && model == target
        decreases due, model.now - instant
      {
        time := Advance(id, time, timeNow, instant, out);
        instant := instant + timers[id].period;
        due := TryNext(id, time, timeNow, instant, out);
      }
    }

    /** What follows the removal of an expired timer from its list, in prvProcessExpiredTimer and for a late command */
    method FinishExpiry(id: nat, expiryTime: nat, timeNow: nat, ghost expiry: nat, ghost out: set<nat>)
      requires Catching(id, expiryTime, timeNow, expiry, out)
      modifies this`timers, this`currentTimerList, this`overflowTimerList, this`model
      ensures Linked() && model == Expired(old(model), id, expiry)
    {
      hide InvBut, WrapAll, Due, List, Reload;
      if timers[id].reload {
        ReloadTimer(id, expiryTime, timeNow, expiry, out);
      } else {
        timers := timers[id := timers[id].(active := false)];
        model := Activate(model, id, false);
      }
      Callback(id);
    }

    /** prvProcessExpiredTimer */
    method ProcessExpiredTimer(nextExpireTime: nat, timeNow: nat, ghost out: set<nat>)
      requires Linked() && InvBut(model, out) && model.current != [] && model.current[0].expiry <= model.now
      requires timeNow == model.now % range && nextExpireTime == model.current[0].expiry % range
      modifies this`timers, this`currentTimerList, this`overflowTimerList, this`model
      ensures WellFormed(old(model)) && Linked() && model == ProcessExpired(old(model))
    {
      InvButWellFormed(model, out);
      WrapAllParts(model.current, range);
      DetachKeeps(model, out);
      ghost var first := model.current[0];
      RecentExpiry(model, first);
      var id := currentTimerList[0].id;
      currentTimerList := currentTimerList[1..];
      model := model.(current := model.current[1..]);
      hide InvBut, WrapAll, Due, List, Reload, Expired;
      InvButWellFormed(model, out + {id});
      FinishExpiry(id, nextExpireTime, timeNow, first.expiry, out + {id});
    }

    /** prvSwitchTimerLists; the clock is taken to stand at the end of the lap that has passed */
    method SwitchTimerLists(ghost out: set<nat>)
      requires Linked() && WellFormed(model) && InvBut(model, out) && model.now == EndOfLap(model.now, range)
      modifies this`timers, this`currentTimerList, this`overflowTimerList, this`model
      ensures Linked() && WellFormed(old(model))
      ensures model == (var s := Drain(old(model)); s.(current := s.overflow, overflow := []))
    {
      hide InvBut, WellFormed, WrapAll, ProcessExpired, Drain, EndOfLap, Lap;
      ghost var target := Drain(model);
      LastTick(model.now, range);
      WrapAllParts(model.current, range);
      while currentTimerList != []
        invariant Linked() && WellFormed(model) && InvBut(model, out)
        invariant model.now == EndOfLap(model.now, range) && model.now % range == range - 1
        invariant Drain(model) == target
        invariant |currentTimerList| == |model.current|
        decreases |currentTimerList|
      {
        DrainStep(model, out);
        WrapAllParts(model.current, range);
        ProcessExpiredTimer(currentTimerList[0].value, range - 1, out);
        WrapAllParts(model.current, range);
      }
      DrainEnd(model);
      assert model == target;
      currentTimerList, overflowTimerList := overflowTimerList, currentTimerList;
      model := model.(current := model.overflow, overflow := []);
    }

    /** prvSampleTimeNow */
    method SampleTimeNow(timeNow: nat, ghost now: nat, ghost out: set<nat>) returns (switched: bool)
      requires Linked() && WellFormed(model) && InvBut(model, out)
      requires lastTime == model.now % range && model.now <= now < model.now + range && timeNow == now % range
      modifies this
      ensures Linked() && WellFormed(old(model)) && model == Sample(old(model), now) && lastTime == timeNow
      ensures switched <==> Lap(now, range) != Lap(old(model).now, range)
    {
      hide InvBut, WrapAll, Drain, EndOfLap, Lap;
      WrapSeen(model.now, now, range);
      EndIsEnd(model.now, range);
      switched := timeNow < lastTime;
      if switched {
        AdvanceKeeps(model, out, EndOfLap(model.now, range));
        model := model.(now := EndOfLap(model.now, range));
        SwitchTimerLists(out);
      }
      model := model.(now := now);
      lastTime := timeNow;
    }

    /** prvProcessTimerOrBlockTask with prvGetNextExpireTime: one turn of the daemon */
    method ProcessTimerOrBlock(timeNow: nat, ghost now: nat) returns (blocked: bool)
      requires Valid() && Enabled(model, Turn(now)) && timeNow == now % range
      modifies this
      ensures Valid() && Enabled(old(model), Turn(now)) && model == Apply(old(model), Turn(now))
      ensures blocked <==> Blocks(old(model), now)
    {
      hide Enabled, Apply, InvBut, WrapAll, Due, Past, Sample, Unlist, Expired, Reload, Drain, ProcessExpired, WellFormed,
        Insert, InsertValue, Remove, RemoveItem, Lap;
      TurnFacts(model, now);
      WrapAllParts(model.current, range);
      var listWasEmpty := currentTimerList == [];
      var nextExpireTime := if listWasEmpty then 0 else currentTimerList[0].value;
      var switched := SampleTimeNow(timeNow, now, {});
      blocked := false;
      if !switched {
        if !listWasEmpty && nextExpireTime <= timeNow {
          ProcessExpiredTimer(nextExpireTime, timeNow, {});
        } else {
          blocked := true;
        }
      }
    }

    /** Start of prvProcessReceivedCommands: the timer leaves its list, and the clock is sampled. */
    method ReceiveCommand(id: nat, timeNow: nat, ghost now: nat)
      requires Valid() && id < |timers| && WellFormed(model)
      requires model.now <= now < model.now + range && timeNow == now % range
      modifies this
      ensures Linked() && WellFormed(old(model)) && model == Sample(Unlist(old(model), id), now) && lastTime == timeNow
      ensures InvBut(model, {id}) && id < |timers| && timers[id] == old(timers)[id]
    {
      hide Enabled, Apply, Inv, InvBut, WrapAll, Due, Past, Sample, Unlist, Expired, Reload, Drain, ProcessExpired, WellFormed,
        Insert, InsertValue, Remove, RemoveItem, Lap;
      RemoveWraps(model.current, id, range);
      RemoveWraps(model.overflow, id, range);
      UnlistFacts(model, id, now);
      currentTimerList, overflowTimerList := RemoveItem(currentTimerList, id), RemoveItem(overflowTimerList, id);
      model := Unlist(model, id);
      var _ := SampleTimeNow(timeNow, now, {id});
    }

    /** A start or reset command, issued at `commandTime` */
    method StartTimer(id: nat, commandTime: nat, timeNow: nat, ghost command: nat, ghost now: nat)
      requires Valid() && Enabled(model, Start(id, command, now))
      requires timeNow == now % range && commandTime == command % range
      modifies this
      ensures Valid() && Enabled(old(model), Start(id, command, now))
      ensures model == Apply(old(model), Start(id, command, now))
    {
      hide Enabled, Apply, Inv, InvBut, WrapAll, Due, Past, Sample, Unlist, Expired, Reload, Drain, ProcessExpired, WellFormed,
        Insert, InsertValue, Remove, RemoveItem, Lap;
      StartFacts(model, id, command, now);
      ghost var period := timers[id].period;
      ReceiveCommand(id, timeNow, now);
      model := Begin(model, id, command, period);
      timers := timers[id := timers[id].(active := true)];
      PlaceStarted(id, commandTime, timeNow, command);
    }

    /** The timer has been set going: it is listed, or if its first expiry has passed already it is dealt with at once. */
    method PlaceStarted(id: nat, commandTime: nat, timeNow: nat, ghost command: nat)
      requires Linked() && WellFormed(model) && InvBut(model, {id}) && id < |timers|
      requires command <= model.now < command + range && Due(model.timers[id]) == command + timers[id].period
      requires timeNow == model.now % range && commandTime == command % range
      modifies this`timers, this`currentTimerList, this`overflowTimerList, this`model
      ensures WellFormed(old(model)) && old(timers)[id].period > 0 && Linked()
      ensures model == Started(old(model), id, command + old(timers)[id].period)
    {
      ghost var expiry := command + timers[id].period;
      hide Inv, InvBut, WrapAll, Due, Past, Reload, Insert, InsertValue, Lap;
      PeriodsOk(model, {id}, id);
      ModOfSum(command, timers[id].period, range);
      var expiryTime := (commandTime + timers[id].period) % range;
      var due := InsertTimerInActiveList(id, expiryTime, timeNow, commandTime, command, {id});
      if due {
        FinishExpiry(id, expiryTime, timeNow, expiry, {id});
      }
    }

    /** A stop command */
    method StopTimer(id: nat, timeNow: nat, ghost now: nat)
      requires Valid() && Enabled(model, Stop(id, now)) && timeNow == now % range
      modifies this
      ensures Valid() && Enabled(old(model), Stop(id, now)) && model == Apply(old(model), Stop(id, now))
      ensures id < |timers| && timers[id] == old(timers)[id].(active := false)
    {
      hide Enabled, Apply, Inv, InvBut, WrapAll, Due, Past, Sample, Unlist, Expired, Reload, Drain, ProcessExpired, WellFormed,
        Insert, InsertValue, Remove, RemoveItem, Lap;
      StopFacts(model, id, now);
      ReceiveCommand(id, timeNow, now);
      timers := timers[id := timers[id].(active := false)];
      model := Activate(model, id, false);
    }

    /** A command that changes the period, which counts from when it is carried out */
    method ChangeTimerPeriod(id: nat, period: nat, timeNow: nat, ghost now: nat)
      requires Valid() && Enabled(model, ChangePeriod(id, period, now)) && timeNow == now % range
      modifies this
      ensures Valid() && Enabled(old(model), ChangePeriod(id, period, now))
      ensures model == Apply(old(model), ChangePeriod(id, period, now))
      ensures id < |timers| && timers[id] == old(timers)[id].(active := true, period := period)
    {
      hide Enabled, Apply, Inv, InvBut, WrapAll, Due, Past, Sample, Unlist, Expired, Reload, Drain, ProcessExpired, WellFormed,
        Insert, InsertValue, Remove, RemoveItem, Lap;
      ChangeFacts(model, id, period, now);
      ReceiveCommand(id, timeNow, now);
      model := Begin(model, id, now, period);
      timers := timers[id := timers[id].(active := true, period := period)];
      ModOfSum(now, period, range);
      var _ := InsertTimerInActiveList(id, (timeNow + timers[id].period) % range, timeNow, timeNow, now, {id});
    }
  }

  lemma LastTick(now: nat, range: nat)
    requires range > 0 && now == EndOfLap(now, range)
    ensures now % range == range - 1
  {
    DivModUnique(now, range, now / range, range - 1);
  }

  lemma DrainStep(s: State, out: set<nat>)
    requires WellFormed(s) && InvBut(s, out) && s.current != [] && s.now == EndOfLap(s.now, s.range)
    ensures s.current[0].expiry <= s.now
    ensures WellFormed(ProcessExpired(s)) && InvBut(ProcessExpired(s), out) && ProcessExpired(s).now == s.now
    ensures ProcessExpired(s).range == s.range && |ProcessExpired(s).current| == |s.current| - 1
    ensures Drain(ProcessExpired(s)) == Drain(s)
  {
    ProcessAtEnd(s);
    DueByEnd(s, s.current[0]);
    ProcessKeeps(s, out);
  }

  lemma DrainEnd(s: State)
    requires WellFormed(s) && s.current == [] && s.now == EndOfLap(s.now, s.range)
    ensures Drain(s) == s
  {
  }

  lemma RecentExpiry(s: State, e: Entry)
    requires s.range > 0 && EntryOk(s, e, s.now / s.range) && e.expiry <= s.now
    ensures s.now < e.expiry + s.range
  {
    assert s.now == s.now / s.range * s.range + s.now % s.range;
    assert e.expiry == e.expiry / s.range * s.range + e.expiry % s.range;
  }

  /** A wrap shows as a tick count smaller than the last, as long as less than a lap has passed. */
  lemma WrapSeen(before: nat, now: nat, range: nat)
    requires before <= now < before + range
    ensures now % range < before % range <==> Lap(now, range) != Lap(before, range)
  {
    SplitFrom(before, now - before, range);
  }

  lemma TurnFacts(s: State, now: nat)
    requires Inv(s) && Enabled(s, Turn(now))
    ensures WellFormed(s) && s.now <= now < s.now + s.range && Sample(s, now).now == now
    ensures Inv(Apply(s, Turn(now)))
    ensures InvBut(Sample(s, now), {})
    ensures var due := Lap(now, s.range) == Lap(s.now, s.range) && s.current != [] && s.current[0].expiry <= now;
            Apply(s, Turn(now)) == if due then ProcessExpired(Sample(s, now)) else Sample(s, now)
    ensures Apply(s, Turn(now)).now == now
    ensures Lap(now, s.range) == Lap(s.now, s.range) ==> Sample(s, now) == s.(now := now)
    ensures Lap(now, s.range) == Lap(s.now, s.range) && s.current != [] ==>
              (s.current[0].expiry <= now <==> s.current[0].expiry % s.range <= now % s.range)
  {
    ActionKeepsInv(s, Turn(now));
    SampleKeeps(s, {}, now);
    if Apply(s, Turn(now)) != Sample(s, now) {
      ProcessKeeps(Sample(s, now), {});
    }
    if Lap(now, s.range) == Lap(s.now, s.range) && s.current != [] {
      assert EntryOk(s, s.current[0], Lap(s.now, s.range));
      SameLapOrder(s.(now := now), s.current[0]);
    }
  }

  lemma UnlistFacts(s: State, id: nat, now: nat)
    requires Inv(s) && WellFormed(s) && Known(s, id) && s.now <= now < s.now + s.range
    ensures var unlisted := Unlist(s, id);
            && InvBut(unlisted, {id}) && unlisted.timers == s.timers && unlisted.now == s.now && unlisted.range == s.range
            && unlisted.current == Remove(s.current, id) && unlisted.overflow == Remove(s.overflow, id)
            && InvBut(Sample(unlisted, now), {id}) && Sample(unlisted, now).timers[id] == s.timers[id]
            && WellFormed(Sample(unlisted, now))
  {
    UnlistKeeps(s, id);
    SampleKeeps(Unlist(s, id), {id}, now);
  }

  lemma PeriodsOk(s: State, out: set<nat>, id: nat)
    requires InvBut(s, out) && Known(s, id)
    ensures 0 < s.timers[id].period < s.range
  {
    assert TimerOk(s, id);
  }

  lemma StartedKeepsNow(s: State, id: nat, expiry: nat)
    requires WellFormed(s) && Known(s, id)
    ensures Started(s, id, expiry).now == s.now
  {
    ReloadKeepsNow(s, id, expiry);
  }

  lemma StartFacts(s: State, id: nat, command: nat, now: nat)
    requires Inv(s) && Enabled(s, Start(id, command, now))
    ensures WellFormed(s) && Known(s, id) && s.now <= now < s.now + s.range && command <= now < command + s.range
    ensures Inv(Apply(s, Start(id, command, now))) && Apply(s, Start(id, command, now)).now == now
    ensures var period := s.timers[id].period;
            var begun := Begin(Sample(Unlist(s, id), now), id, command, period);
            && InvBut(begun, {id}) && WellFormed(begun) && begun.now == now && Due(begun.timers[id]) == command + period
            && Apply(s, Start(id, command, now)) == Started(begun, id, command + period)
  {
    hide InvBut, Sample, Unlist, Expired, Reload, Drain, List, Due, Past, Lap;
    StartKeeps(s, id, command, now);
    UnlistFacts(s, id, now);
    PeriodsOk(s, {}, id);
    BeginKeeps(Sample(Unlist(s, id), now), id, command, s.timers[id].period);
    var begun := Begin(Sample(Unlist(s, id), now), id, command, s.timers[id].period);
    InvButWellFormed(begun, {id});
    StartedKeepsNow(begun, id, command + s.timers[id].period);
  }

  lemma ChangeFacts(s: State, id: nat, period: nat, now: nat)
    requires Inv(s) && Enabled(s, ChangePeriod(id, period, now))
    ensures WellFormed(s) && Known(s, id) && s.now <= now < s.now + s.range && 0 < period < s.range
    ensures Inv(Apply(s, ChangePeriod(id, period, now)))
    ensures var begun := Begin(Sample(Unlist(s, id), now), id, now, period);
            && InvBut(begun, {id}) && begun.now == now
            && Apply(s, ChangePeriod(id, period, now)) == List(begun, Entry(id, now + period))
  {
    hide InvBut, Sample, Unlist, Expired, Reload, Drain, List, Due, Past, Lap;
    ChangePeriodKeeps(s, id, period, now);
    UnlistFacts(s, id, now);
    BeginKeeps(Sample(Unlist(s, id), now), id, now, period);
  }

  lemma StopFacts(s: State, id: nat, now: nat)
    requires Inv(s) && Enabled(s, Stop(id, now))
    ensures WellFormed(s) && Known(s, id) && s.now <= now < s.now + s.range
    ensures Inv(Apply(s, Stop(id, now)))
    ensures Apply(s, Stop(id, now)) == Activate(Sample(Unlist(s, id), now), id, false)
    ensures Apply(s, Stop(id, now)).now == now
  {
    StopKeeps(s, id, now);
  }

  lemma SameLapOrder(s: State, e: Entry)
    requires s.range > 0 && Lap(e.expiry, s.range) == Lap(s.now, s.range)
    ensures e.expiry <= s.now <==> e.expiry % s.range <= s.now % s.range
  {
    var lap := Lap(s.now, s.range);
    assert s.now == lap * s.range + s.now % s.range;
    assert e.expiry == lap * s.range + e.expiry % s.range;
  }

  lemma InsertOverflowWraps(s: State, out: set<nat>, e: Entry)
    requires InvBut(s, out) && Lap(e.expiry, s.range) == Lap(s.now, s.range) + 1
    ensures WrapAll(Insert(s.overflow, e), s.range) == InsertValue(WrapAll(s.overflow, s.range), Wrap(e, s.range))
  {
    var lap := Lap(s.now, s.range) + 1;
    forall f | f in s.overflow ensures Lap(f.expiry, s.range) == lap {
      assert EntryOk(s, f, lap);
    }
    InsertWraps(s.overflow, e, s.range, lap);
  }

  lemma InsertCurrentWraps(s: State, out: set<nat>, e: Entry)
    requires InvBut(s, out) && Lap(e.expiry, s.range) == Lap(s.now, s.range)
    ensures WrapAll(Insert(s.current, e), s.range) == InsertValue(WrapAll(s.current, s.range), Wrap(e, s.range))
  {
    var lap := Lap(s.now, s.range);
    forall f | f in s.current ensures Lap(f.expiry, s.range) == lap {
      assert EntryOk(s, f, lap);
    }
    InsertWraps(s.current, e, s.range, lap);
  }

  lemma {:induction false} InsertValuePlace(list: seq<Item>, item: Item, at: nat)
    requires at <= |list| && forall i :: 0 <= i < at ==> list[i].value <= item.value
    requires at < |list| ==> list[at].value > item.value
    ensures InsertValue(list, item) == list[..at] + [item] + list[at..]
    decreases at
  {
    if at > 0 {
      InsertValuePlace(list[1..], item, at - 1);
      assert list[..at] == [list[0]] + list[1..][..at - 1];
      assert list[1..][at - 1..] == list[at..];
    }
  }
}
