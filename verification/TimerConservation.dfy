/** Every expiry of a software timer brings one callback, whatever the wraps and however late the daemon runs. */
module TimerConservation {
  import opened Arithmetic
  import opened Timers

  /** The next instant at which the timer is due, and the last one that brought a callback. */
  function Due(timer: Timer): nat { timer.start + (timer.fires + 1) * timer.period }

  function Past(timer: Timer): nat { timer.start + timer.fires * timer.period }

  lemma FireMoves(timer: Timer)
    ensures Due(timer) == Past(timer) + timer.period
    ensures Past(timer.(fires := timer.fires + 1)) == Due(timer)
    ensures Due(timer.(fires := timer.fires + 1)) == Due(timer) + timer.period
  {
  }

  ghost predicate Ordered(list: seq<Entry>) {
    forall i, j :: 0 <= i < j < |list| ==> list[i].id != list[j].id && list[i].expiry <= list[j].expiry
  }

  ghost predicate Has(list: seq<Entry>, id: int) {
    exists e :: e in list && e.id == id
  }

  ghost predicate EntryOk(s: State, e: Entry, lap: nat) {
    && Known(s, e.id)
    && s.range > 0
    && s.timers[e.id].active
    && (s.timers[e.id].reload || s.timers[e.id].fires == 0)
    && e.expiry == Due(s.timers[e.id])
    && Lap(e.expiry, s.range) == lap
  }

  ghost predicate ListOk(s: State, list: seq<Entry>, lap: nat) {
    Ordered(list) && forall e :: e in list ==> EntryOk(s, e, lap)
  }

  ghost predicate TimerOk(s: State, id: nat)
    requires Known(s, id)
  {
    0 < s.timers[id].period < s.range && Past(s.timers[id]) <= s.now
  }

  ghost predicate NotIn(list: seq<Entry>, out: set<nat>) {
    forall e :: e in list ==> e.id !in out
  }

  /** The invariant, with the timers `out` in no list. */
  ghost predicate InvBut(s: State, out: set<nat>) {
    && s.range > 0
    && (forall id: nat :: Known(s, id) ==> TimerOk(s, id))
    && ListOk(s, s.current, Lap(s.now, s.range))
    && ListOk(s, s.overflow, Lap(s.now, s.range) + 1)
    && NotIn(s.current, out) && NotIn(s.overflow, out)
    && (forall e, f :: e in s.current && f in s.overflow ==> e.id != f.id)
    && (forall id: nat :: Known(s, id) && s.timers[id].active && id !in out ==> Has(s.current, id) || Has(s.overflow, id))
  }

  ghost predicate Inv(s: State) { InvBut(s, {}) }

  // ----- lists

  lemma OrderedFirst(x: Entry, rest: seq<Entry>)
    requires Ordered(rest) && forall e :: e in rest ==> e.id != x.id && x.expiry <= e.expiry
    ensures Ordered([x] + rest)
  {
    assert forall i :: 0 <= i < |rest| ==> rest[i] in rest;
  }

  lemma OrderedRest(list: seq<Entry>)
    requires Ordered(list) && list != []
    ensures Ordered(list[1..])
    ensures forall e :: e in list <==> e == list[0] || e in list[1..]
    ensures forall e :: e in list[1..] ==> e.id != list[0].id && list[0].expiry <= e.expiry
  {
    assert list == [list[0]] + list[1..];
    forall e | e in list[1..] ensures e.id != list[0].id && list[0].expiry <= e.expiry {
      var i :| 0 <= i < |list[1..]| && list[1..][i] == e;
      assert list[i + 1] == e;
    }
  }

  lemma {:induction false} InsertOk(list: seq<Entry>, x: Entry)
    requires Ordered(list) && !Has(list, x.id)
    ensures Ordered(Insert(list, x))
    ensures forall e :: e in Insert(list, x) <==> e == x || e in list
  {
    if list != [] {
      OrderedRest(list);
      hide Ordered;
      assert list[0] in list;
      if list[0].expiry <= x.expiry {
        assert !Has(list[1..], x.id);
        InsertOk(list[1..], x);
        OrderedFirst(list[0], Insert(list[1..], x));
      } else {
        OrderedFirst(x, list);
      }
    }
  }

  lemma {:induction false} RemoveOk(list: seq<Entry>, id: nat)
    requires Ordered(list)
    ensures Ordered(Remove(list, id)) && !Has(Remove(list, id), id)
    ensures forall e :: e in Remove(list, id) <==> e in list && e.id != id
  {
    if list != [] {
      OrderedRest(list);
      hide Ordered;
      RemoveOk(list[1..], id);
      if list[0].id != id {
        OrderedFirst(list[0], Remove(list[1..], id));
      }
    }
  }

  // ----- one timer at a time

  /** A timer in no list may change as it likes. */
  lemma TimerChangeKeeps(s: State, out: set<nat>, id: nat, timer: Timer)
    requires InvBut(s, out) && id in out && Known(s, id) && 0 < timer.period < s.range && Past(timer) <= s.now
    ensures InvBut(s.(timers := s.timers[id := timer]), out)
  {
    var s' := s.(timers := s.timers[id := timer]);
    hide Due, Past, Lap, Ordered;
    assert forall e :: e in s.current ==> EntryOk(s, e, Lap(s.now, s.range)) && e.id != id;
    assert forall e :: e in s.overflow ==> EntryOk(s, e, Lap(s.now, s.range) + 1) && e.id != id;
    forall k: nat | Known(s', k) ensures TimerOk(s', k) {
      assert TimerOk(s, if k == id then id else k);
    }
  }

  lemma ListOkInsert(s: State, list: seq<Entry>, lap: nat, e: Entry)
    requires ListOk(s, list, lap) && !Has(list, e.id) && EntryOk(s, e, lap)
    ensures ListOk(s, Insert(list, e), lap)
    ensures forall f :: f in Insert(list, e) <==> f == e || f in list
  {
    InsertOk(list, e);
    hide EntryOk, Ordered, Insert;
  }

  /** Only the timers and the range matter to a list. */
  lemma ListOkSame(s: State, s': State, list: seq<Entry>, lap: nat)
    requires ListOk(s, list, lap) && s'.timers == s.timers && s'.range == s.range
    ensures ListOk(s', list, lap)
  {
    hide Due, Lap, Ordered;
    forall e | e in list ensures EntryOk(s', e, lap) {
      assert EntryOk(s, e, lap);
    }
  }

  lemma ListedOk(s: State, e: Entry, lap: nat)
    requires s.range > 0 && lap == Lap(s.now, s.range)
    requires ListOk(s, s.current, lap) && ListOk(s, s.overflow, lap + 1)
    requires !Has(s.current, e.id) && !Has(s.overflow, e.id)
    requires EntryOk(s, e, lap) || EntryOk(s, e, lap + 1)
    ensures var s' := List(s, e); ListOk(s', s'.current, lap) && ListOk(s', s'.overflow, lap + 1)
  {
    var s' := List(s, e);
    if Lap(e.expiry, s.range) == lap {
      ListOkInsert(s, s.current, lap, e);
    } else {
      ListOkInsert(s, s.overflow, lap + 1, e);
    }
    hide ListOk;
    ListOkSame(s, s', s'.current, lap);
    ListOkSame(s, s', s'.overflow, lap + 1);
  }

  /** Listing a timer at the instant at which it is due, in this lap or the next, brings it back into the invariant. */
  lemma ListKeeps(s: State, out: set<nat>, id: nat, expiry: nat)
    requires InvBut(s, out) && id in out && Known(s, id) && s.now < expiry < s.now + s.range
    requires s.timers[id].active && (s.timers[id].reload || s.timers[id].fires == 0) && expiry == Due(s.timers[id])
    ensures InvBut(List(s, Entry(id, expiry)), out - {id})
  {
    var e, s', lap := Entry(id, expiry), List(s, Entry(id, expiry)), Lap(s.now, s.range);
    NextLap(s.now, expiry, s.range);
    ListedOk(s, e, lap);
    hide Due, Past, ListOk, Insert, EntryOk;
    forall k: nat | Known(s', k) ensures TimerOk(s', k) {
      assert TimerOk(s, k);
    }
    ListedStay(s, out, id, e);
  }

  lemma {:induction false} InsertMembers(list: seq<Entry>, x: Entry)
    ensures forall e :: e in Insert(list, x) <==> e == x || e in list
  {
    if list != [] {
      assert list == [list[0]] + list[1..];
      InsertMembers(list[1..], x);
    }
  }

  lemma ListedStay(s: State, out: set<nat>, id: nat, e: Entry)
    requires InvBut(s, out) && id in out && Known(s, id) && e.id == id
    ensures var s' := List(s, e);
            && NotIn(s'.current, out - {id}) && NotIn(s'.overflow, out - {id})
            && (forall g, f :: g in s'.current && f in s'.overflow ==> g.id != f.id)
            && (forall k: nat :: Known(s', k) && s'.timers[k].active && k !in out - {id} ==>
                  Has(s'.current, k) || Has(s'.overflow, k))
  {
    InsertMembers(s.current, e);
    InsertMembers(s.overflow, e);
    hide ListOk, TimerOk, Insert;
    var s' := List(s, e);
    assert e in s'.current || e in s'.overflow;
  }

  lemma NextLap(now: nat, instant: nat, range: nat)
    requires now < instant < now + range
    ensures Lap(instant, range) == Lap(now, range) || Lap(instant, range) == Lap(now, range) + 1
  {
    SplitFrom(now, instant - now, range);
  }

  // ----- processing

  lemma {:induction false} FireCommutes(s: State, id: nat, expired: nat)
    requires WellFormed(s) && Known(s, id)
    ensures Fire(Reload(s, id, expired), id) == Reload(Fire(s, id), id, expired)
    decreases if expired <= s.now then s.now - expired + 1 else 0
  {
    var next := expired + s.timers[id].period;
    if next <= s.now {
      FireCommutes(Fire(s, id), id, next);
    }
  }

  /** All other timers are as before, and this one differs in its count of callbacks at most. */
  ghost predicate OnlyFired(s: State, s': State, id: nat)
    requires Known(s, id)
  {
    && s'.range == s.range && s'.now == s.now && |s'.timers| == |s.timers|
    && s'.timers == s.timers[id := s'.timers[id]]
    && s'.timers[id] == s.timers[id].(fires := s'.timers[id].fires)
  }

  /** Exactly the expiries that have passed have brought a callback. */
  predicate Settled(timer: Timer, now: nat) { Past(timer) <= now < Due(timer) }

  lemma InvButWellFormed(s: State, out: set<nat>)
    requires InvBut(s, out)
    ensures WellFormed(s)
  {
    forall id: nat | Known(s, id) ensures 0 < s.timers[id].period < s.range {
      assert TimerOk(s, id);
    }
    assert forall e :: e in s.current ==> EntryOk(s, e, Lap(s.now, s.range));
    assert forall e :: e in s.overflow ==> EntryOk(s, e, Lap(s.now, s.range) + 1);
  }

  /** The reload loop catches up: it ends with the timer listed at the first instant of its series after now. */
  lemma {:induction false} ReloadKeeps(s: State, out: set<nat>, id: nat, expired: nat)
    requires InvBut(s, out) && id in out && Known(s, id) && s.timers[id].active && s.timers[id].reload
    requires expired == Past(s.timers[id]) <= s.now
    ensures WellFormed(s) && InvBut(Reload(s, id, expired), out - {id})
    ensures OnlyFired(s, Reload(s, id, expired), id)
    ensures Settled(Reload(s, id, expired).timers[id], s.now)
    decreases if expired <= s.now then s.now - expired + 1 else 0
  {
    hide Due, Past, InvBut, Insert, Lap;
    InvButWellFormed(s, out);
    var timer := s.timers[id];
    var next := expired + timer.period;
    FireMoves(timer);
    if next <= s.now {
      TimerChangeKeeps(s, out, id, timer.(fires := timer.fires + 1));
      ReloadKeeps(Fire(s, id), out, id, next);
    } else {
      ListKeeps(s, out, id, next);
    }
  }

  lemma InactiveKeeps(s: State, out: set<nat>, id: nat)
    requires InvBut(s, out) && Known(s, id) && !s.timers[id].active
    ensures InvBut(s, out - {id})
  {
    hide ListOk, TimerOk;
  }

  /** A timer that has expired brings one callback for this expiry and one for each later one that has passed too; a
      one-shot timer brings its only callback. */
  lemma ExpiredKeeps(s: State, out: set<nat>, id: nat, expiry: nat)
    requires InvBut(s, out) && id in out && Known(s, id) && s.timers[id].active
    requires s.timers[id].reload || s.timers[id].fires == 0
    requires expiry == Due(s.timers[id]) <= s.now
    ensures WellFormed(s) && InvBut(Expired(s, id, expiry), out - {id}) && Expired(s, id, expiry).now == s.now
    ensures var s' := Expired(s, id, expiry);
            && s'.timers == s.timers[id := s'.timers[id]]
            && if s.timers[id].reload then s'.timers[id].active && Settled(s'.timers[id], s.now)
               else !s'.timers[id].active && s'.timers[id].fires == 1
  {
    InvButWellFormed(s, out);
    var timer := s.timers[id];
    FireMoves(timer);
    TimerChangeKeeps(s, out, id, timer.(fires := timer.fires + 1));
    if timer.reload {
      FireCommutes(s, id, expiry);
      hide Due, Past;
      ReloadKeeps(Fire(s, id), out, id, expiry);
    } else {
      var done := timer.(fires := timer.fires + 1, active := false);
      assert Past(done) == Past(timer.(fires := timer.fires + 1));
      hide Due, Past;
      TimerChangeKeeps(s, out, id, done);
      var s' := s.(timers := s.timers[id := done]);
      assert s' == Expired(s, id, expiry);
      InactiveKeeps(s', out, id);
    }
  }

  lemma DetachKeeps(s: State, out: set<nat>)
    requires InvBut(s, out) && s.current != []
    ensures InvBut(s.(current := s.current[1..]), out + {s.current[0].id}) && s.current[0].id !in out
    ensures EntryOk(s, s.current[0], Lap(s.now, s.range))
  {
    var first, s' := s.current[0], s.(current := s.current[1..]);
    OrderedRest(s.current);
    assert first in s.current;
    hide Due, Past, Ordered;
    forall id: nat | Known(s', id) ensures TimerOk(s', id) {
      assert TimerOk(s, id);
    }
    forall e | e in s'.current ensures EntryOk(s', e, Lap(s.now, s.range)) {
      assert EntryOk(s, e, Lap(s.now, s.range));
    }
    forall e | e in s'.overflow ensures EntryOk(s', e, Lap(s.now, s.range) + 1) {
      assert EntryOk(s, e, Lap(s.now, s.range) + 1);
    }
  }

  lemma ProcessKeeps(s: State, out: set<nat>)
    requires InvBut(s, out) && s.current != [] && s.current[0].expiry <= s.now
    ensures WellFormed(s) && InvBut(ProcessExpired(s), out) && ProcessExpired(s).now == s.now
    ensures forall id: nat :: id in out && Known(s, id) ==> ProcessExpired(s).timers[id] == s.timers[id]
  {
    var id := s.current[0].id;
    InvButWellFormed(s, out);
    DetachKeeps(s, out);
    hide Due, Past, ListOk, TimerOk, Expired;
    ExpiredKeeps(s.(current := s.current[1..]), out + {id}, id, s.current[0].expiry);
    assert out + {id} - {id} == out;
  }

  // ----- the clock

  lemma AdvanceKeeps(s: State, out: set<nat>, now: nat)
    requires InvBut(s, out) && s.now <= now && Lap(now, s.range) == Lap(s.now, s.range)
    ensures InvBut(s.(now := now), out)
  {
    var s' := s.(now := now);
    hide Due, Past, Ordered, Lap;
    forall id: nat | Known(s', id) ensures TimerOk(s', id) {
      assert TimerOk(s, id);
    }
    forall e | e in s.current ensures EntryOk(s', e, Lap(s.now, s.range)) {
      assert EntryOk(s, e, Lap(s.now, s.range));
    }
    forall e | e in s.overflow ensures EntryOk(s', e, Lap(s.now, s.range) + 1) {
      assert EntryOk(s, e, Lap(s.now, s.range) + 1);
    }
  }

  lemma SwapKeeps(s: State, out: set<nat>, now: nat)
    requires InvBut(s, out) && s.current == [] && s.now <= now && Lap(now, s.range) == Lap(s.now, s.range) + 1
    ensures InvBut(s.(current := s.overflow, overflow := [], now := now), out)
  {
    var s' := s.(current := s.overflow, overflow := [], now := now);
    hide Due, Past, Ordered, Lap;
    forall id: nat | Known(s', id) ensures TimerOk(s', id) {
      assert TimerOk(s, id);
    }
    forall e | e in s.overflow ensures EntryOk(s', e, Lap(s.now, s.range) + 1) {
      assert EntryOk(s, e, Lap(s.now, s.range) + 1);
    }
  }

  /** Timers in `out` are left alone. */
  ghost predicate SameTimers(s: State, s': State, out: set<nat>) {
    |s'.timers| == |s.timers| && forall id: nat :: id in out && Known(s, id) ==> s'.timers[id] == s.timers[id]
  }

  lemma {:induction false} DrainKeeps(s: State, out: set<nat>)
    requires WellFormed(s) && InvBut(s, out) && s.now == EndOfLap(s.now, s.range)
    ensures InvBut(Drain(s), out) && SameTimers(s, Drain(s), out)
    decreases |s.current|
  {
    if s.current != [] {
      ProcessAtEnd(s);
      DueByEnd(s, s.current[0]);
      ProcessKeeps(s, out);
      hide Due, Past, ListOk, TimerOk, ProcessExpired;
      DrainKeeps(ProcessExpired(s), out);
    }
  }

  lemma DueByEnd(s: State, e: Entry)
    requires s.range > 0 && EntryOk(s, e, Lap(s.now, s.range)) && s.now == EndOfLap(s.now, s.range)
    ensures e.expiry <= s.now
  {
    if e.expiry > s.now {
      BeyondEnd(s.now, e.expiry, s.range);
    }
  }

  lemma SampleKeeps(s: State, out: set<nat>, now: nat)
    requires WellFormed(s) && InvBut(s, out) && s.now <= now < s.now + s.range
    ensures InvBut(Sample(s, now), out) && SameTimers(s, Sample(s, now), out)
  {
    if Lap(now, s.range) == Lap(s.now, s.range) {
      AdvanceKeeps(s, out, now);
    } else {
      NextLap(s.now, now, s.range);
      EndIsEnd(s.now, s.range);
      var end := s.(now := EndOfLap(s.now, s.range));
      AdvanceKeeps(s, out, end.now);
      DrainKeeps(end, out);
      BeforeNextLap(s.now, now, s.range);
      hide Due, Past, ListOk, TimerOk, Drain;
      SwapKeeps(Drain(end), out, now);
    }
  }

  lemma BeforeNextLap(now: nat, later: nat, range: nat)
    requires range > 0 && Lap(later, range) == Lap(now, range) + 1
    ensures EndOfLap(now, range) < later
  {
    assert (now / range + 1) * range == now / range * range + range;
    assert later == later / range * range + later % range;
  }

  lemma UnlistKeeps(s: State, id: nat)
    requires WellFormed(s) && Inv(s) && Known(s, id)
    ensures InvBut(Unlist(s, id), {id}) && Unlist(s, id).timers == s.timers && Unlist(s, id).now == s.now
  {
    var s' := Unlist(s, id);
    RemoveOk(s.current, id);
    RemoveOk(s.overflow, id);
    hide Due, Past, Ordered, Lap, Remove;
    forall k: nat | Known(s', k) ensures TimerOk(s', k) {
      assert TimerOk(s, k);
    }
    forall e | e in s'.current ensures EntryOk(s', e, Lap(s.now, s.range)) {
      assert EntryOk(s, e, Lap(s.now, s.range));
    }
    forall e | e in s'.overflow ensures EntryOk(s', e, Lap(s.now, s.range) + 1) {
      assert EntryOk(s, e, Lap(s.now, s.range) + 1);
    }
    forall k: nat | Known(s', k) && s'.timers[k].active && k !in {id} ensures Has(s'.current, k) || Has(s'.overflow, k) {
      assert Has(s.current, k) || Has(s.overflow, k);
    }
  }

  // ----- every action, every run

  lemma BeginKeeps(s: State, id: nat, start: nat, period: nat)
    requires InvBut(s, {id}) && Known(s, id) && start <= s.now && 0 < period < s.range
    ensures InvBut(Begin(s, id, start, period), {id})
    ensures Begin(s, id, start, period).now == s.now && Due(Begin(s, id, start, period).timers[id]) == start + period
  {
    var timer := s.timers[id].(active := true, start := start, fires := 0, period := period);
    TimerChangeKeeps(s, {id}, id, timer);
  }

  /** What a timer with a first expiry gets: its place, or at once all the callbacks that have fallen due. */
  function Started(s: State, id: nat, expiry: nat): State
    requires Known(s, id) && s.timers[id].period > 0 && s.range > 0
  {
    if expiry <= s.now then Expired(s, id, expiry) else List(s, Entry(id, expiry))
  }

  lemma StartedKeeps(s: State, id: nat, expiry: nat)
    requires InvBut(s, {id}) && Known(s, id) && s.timers[id].active && s.timers[id].fires == 0
    requires expiry == Due(s.timers[id]) < s.now + s.range
    ensures WellFormed(s) && Inv(Started(s, id, expiry))
    ensures var timer := Started(s, id, expiry).timers[id];
            && timer.reload == s.timers[id].reload
            && if timer.reload then Settled(timer, s.now) || (timer.fires == 0 && s.now < expiry)
               else timer.fires == if expiry <= s.now then 1 else 0
  {
    InvButWellFormed(s, {id});
    assert {id} - {id} == {};
    hide TimerOk, ListOk, NotIn, Reload, Insert, Settled, Past;
    if expiry <= s.now {
      ExpiredKeeps(s, {id}, id, expiry);
      ExpiredKeepsKind(s, id, expiry);
    } else {
      hide Due;
      ListKeeps(s, {id}, id, expiry);
    }
  }

  lemma ExpiredKeepsKind(s: State, id: nat, expiry: nat)
    requires WellFormed(s) && Known(s, id)
    ensures Expired(s, id, expiry).timers[id].reload == s.timers[id].reload
  {
    ReloadKeepsKind(s, id, expiry);
  }

  lemma {:induction false} ReloadKeepsKind(s: State, id: nat, expired: nat)
    requires WellFormed(s) && Known(s, id)
    ensures Reload(s, id, expired).timers[id].reload == s.timers[id].reload
    decreases if expired <= s.now then s.now - expired + 1 else 0
  {
    var next := expired + s.timers[id].period;
    if next <= s.now {
      ReloadKeepsKind(Fire(s, id), id, next);
    }
  }

  /** The timer before it is placed: in no list, and started anew at the instant of the command. */
  function Begun(s: State, id: nat, command: nat, now: nat): State
    requires WellFormed(s) && Known(s, id)
  {
    Begin(Sample(Unlist(s, id), now), id, command, s.timers[id].period)
  }

  lemma BegunKeeps(s: State, id: nat, command: nat, now: nat)
    requires Inv(s) && Enabled(s, Start(id, command, now))
    ensures var b := Begun(s, id, command, now);
            && InvBut(b, {id}) && b.now == now && b.range == s.range && Known(b, id)
            && Due(b.timers[id]) == command + s.timers[id].period < now + s.range
            && b.timers[id].active && b.timers[id].fires == 0 && b.timers[id].period == s.timers[id].period
  {
    hide Sample, Reload, TimerOk, Past, Due, ListOk, Lap, NotIn;
    UnlistKeeps(s, id);
    SampleKeeps(Unlist(s, id), {id}, now);
    hide Unlist, InvBut;
    BeginKeeps(Sample(Unlist(s, id), now), id, command, s.timers[id].period);
  }

  lemma StartPlaces(s: State, id: nat, command: nat, now: nat)
    requires Enabled(s, Start(id, command, now)) && Begun(s, id, command, now).now == now
    ensures Apply(s, Start(id, command, now)) == Started(Begun(s, id, command, now), id, command + s.timers[id].period)
  {
    hide Sample, Unlist, Expired, List;
  }

  /** A started timer that has become due before its command was carried out has called back for every instant passed. */
  lemma StartKeeps(s: State, id: nat, command: nat, now: nat)
    requires Inv(s) && Enabled(s, Start(id, command, now))
    ensures Inv(Apply(s, Start(id, command, now)))
    ensures var timer := Apply(s, Start(id, command, now)).timers[id];
            if timer.reload then Settled(timer, now) || (timer.fires == 0 && now < command + s.timers[id].period)
            else timer.fires == if command + s.timers[id].period <= now then 1 else 0
  {
    hide WellFormed, Inv, InvBut, Begun, Apply, Started, Due, Settled;
    BegunKeeps(s, id, command, now);
    StartPlaces(s, id, command, now);
    StartedKeeps(Begun(s, id, command, now), id, command + s.timers[id].period);
  }

  lemma ChangePeriodKeeps(s: State, id: nat, period: nat, now: nat)
    requires Inv(s) && Enabled(s, ChangePeriod(id, period, now))
    ensures Inv(Apply(s, ChangePeriod(id, period, now)))
  {
    UnlistKeeps(s, id);
    SampleKeeps(Unlist(s, id), {id}, now);
    hide Sample, Unlist, TimerOk, ListOk, NotIn, Past, Due;
    var sampled := Sample(Unlist(s, id), now);
    BeginKeeps(sampled, id, now, period);
    ListKeeps(Begin(sampled, id, now, period), {id}, id, now + period);
    assert {id} - {id} == {};
  }

  lemma StopKeeps(s: State, id: nat, now: nat)
    requires Inv(s) && Enabled(s, Stop(id, now))
    ensures Inv(Apply(s, Stop(id, now)))
  {
    UnlistKeeps(s, id);
    SampleKeeps(Unlist(s, id), {id}, now);
    hide Sample, Unlist, ListOk, NotIn;
    var sampled := Sample(Unlist(s, id), now);
    assert TimerOk(sampled, id);
    TimerChangeKeeps(sampled, {id}, id, sampled.timers[id].(active := false));
    InactiveKeeps(Activate(sampled, id, false), {id}, id);
    assert {id} - {id} == {};
  }

  lemma TurnKeeps(s: State, now: nat)
    requires Inv(s) && Enabled(s, Turn(now))
    ensures Inv(Apply(s, Turn(now)))
  {
    SampleKeeps(s, {}, now);
    var sampled := Sample(s, now);
    hide Sample, TimerOk, ListOk, NotIn;
    if sampled.current != [] && sampled.current[0].expiry <= now {
      ProcessKeeps(sampled, {});
    }
  }

  lemma ActionKeepsInv(s: State, a: Action)
    requires Inv(s) && Enabled(s, a)
    ensures Inv(Apply(s, a))
  {
    match a
    case Turn(now) => TurnKeeps(s, now);
    case Start(id, command, now) => StartKeeps(s, id, command, now);
    case Stop(id, now) => StopKeeps(s, id, now);
    case ChangePeriod(id, period, now) => ChangePeriodKeeps(s, id, period, now);
  }

  ghost predicate Runs(s: State, actions: seq<Action>)
    decreases |actions|
  {
    actions == [] || (Enabled(s, actions[0]) && Runs(Apply(s, actions[0]), actions[1..]))
  }

  ghost function After(s: State, actions: seq<Action>): State
    requires Runs(s, actions)
    decreases |actions|
  {
    if actions == [] then s else After(Apply(s, actions[0]), actions[1..])
  }

  lemma {:induction false} RunKeepsInv(s: State, actions: seq<Action>)
    requires Inv(s) && Runs(s, actions)
    ensures Inv(After(s, actions))
    decreases |actions|
  {
    hide Inv, Apply;
    if actions != [] {
      ActionKeepsInv(s, actions[0]);
      RunKeepsInv(Apply(s, actions[0]), actions[1..]);
    }
  }

  /** Timers as created: none active. */
  ghost predicate Initial(s: State) {
    && s.range > 0
    && (forall id :: 0 <= id < |s.timers| ==> 0 < s.timers[id].period < s.range && !s.timers[id].active
                                              && s.timers[id].start == 0 && s.timers[id].fires == 0)
    && s.current == [] && s.overflow == []
  }

  lemma InitialInv(s: State)
    requires Initial(s)
    ensures Inv(s)
  {
    forall id: nat | Known(s, id) ensures TimerOk(s, id) {
    }
  }

  /**
   * Conservation. After any run, no timer has called back for an instant still to come; and when the daemon finds nothing
   * to do at instant `now`, every active auto-reload timer that was started at C with period p has called back once for
   * each instant C + kp that has passed.
   */
  lemma CallbacksAreConserved(s: State, actions: seq<Action>, now: nat)
    requires Initial(s) && Runs(s, actions)
    requires Enabled(After(s, actions), Turn(now)) && Blocks(After(s, actions), now)
    ensures var e := After(s, actions);
            && (forall id :: 0 <= id < |e.timers| ==> Past(e.timers[id]) <= e.now)
            && (forall id :: 0 <= id < |e.timers| && e.timers[id].active ==>
                  if e.timers[id].reload then Settled(e.timers[id], now)
                  else e.timers[id].fires == 0 && now < Due(e.timers[id]))
  {
    InitialInv(s);
    RunKeepsInv(s, actions);
    var e := After(s, actions);
    hide Runs, After, Settled;
    forall id: nat | Known(e, id) ensures Past(e.timers[id]) <= e.now {
      assert TimerOk(e, id);
    }
    forall id: nat | Known(e, id) && e.timers[id].active
      ensures if e.timers[id].reload then Settled(e.timers[id], now) else e.timers[id].fires == 0 && now < Due(e.timers[id])
    {
      ActiveIsAhead(e, id, now);
    }
  }

  lemma ActiveIsAhead(s: State, id: nat, now: nat)
    requires Inv(s) && Known(s, id) && s.timers[id].active && s.now <= now && Blocks(s, now)
    ensures Past(s.timers[id]) <= now < Due(s.timers[id]) && (s.timers[id].reload || s.timers[id].fires == 0)
  {
    assert TimerOk(s, id);
    hide Past, Due;
    if Has(s.current, id) {
      var e :| e in s.current && e.id == id;
      assert EntryOk(s, e, Lap(s.now, s.range));
      var i :| 0 <= i < |s.current| && s.current[i] == e;
      assert s.current[0].expiry <= e.expiry;
    } else {
      var e :| e in s.overflow && e.id == id;
      assert EntryOk(s, e, Lap(s.now, s.range) + 1);
      BeforeNextLap(now, e.expiry, s.range);
      EndIsEnd(now, s.range);
    }
  }
}
