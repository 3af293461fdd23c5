/** The periodic, weakly-hard, deadline-driven scheduler as functions on values: what one tick does to the task control
    blocks, the ready list of priority 1 and the wait list. `PeriodicKernel` proves that the imperative code computes
    these functions; `PeriodicTasks` and `Schedulability` prove what they mean. */
module Periodic {
  import opened KernelList
  import opened WeaklyHard

  datatype Algorithm = EDF | RTO | BWP

  /** What a task is created with. */
  datatype Params = Params(period: nat, duration: nat, constraint: nat) {
    predicate Valid() {
      1 <= duration <= period && constraint < BYTE
    }
  }

  /** The fields of a task control block that the periodic scheduler uses, and the task's entry in the simulator's
      report: `kills` counts incrementTimesKilled, `hits` holds the jobs that setReport marked. */
  datatype Tcb = Tcb(period: nat, duration: nat, constraint: nat, start: nat, remaining: nat, met: nat, key: nat,
                     kills: nat, hits: set<nat>)
  {
    /** A red job must not be missed; a blue one may be. */
    predicate Red() {
      MissBreaks(constraint, met)
    }

    /** The test of killTasks: the job can no longer finish within its period. */
    predicate TooLate(now: nat) {
      now - start + remaining > period
    }

    function ReleaseDeadline(now: nat): nat
      requires period > 0
    {
      period + now - now % period
    }
  }

  const NOBODY: int := -1

  /** `ready` is the ready list of priority 1, head first; `running` is the current task, NOBODY while idle runs. */
  datatype System = System(now: nat, tcbs: seq<Tcb>, ready: seq<int>, wait: KList<int>, running: int, broken: bool)

  // ----- list keys

  /** `x | (1 << bit)` */
  function SetBit(x: nat, power: nat): (r: nat)
    requires power > 0
  {
    if (x / power) % 2 == 1 then x else x + power
  }

  const BIT30: nat := 0x4000_0000
  const BIT31: nat := 0x8000_0000

  /** The item value prvAddTaskToReadyList gives a periodic task. */
  function ReadyKey(alg: Algorithm, t: Tcb, now: nat): (key: nat)
    requires t.period > 0
  {
    match alg
    case EDF => t.ReleaseDeadline(now)
    case RTO => t.ReleaseDeadline(now)
    case BWP =>
      var red := SetBit(t.ReleaseDeadline(now), BIT31);
      if t.Red() then red else SetBit(red, BIT30)
  }

  function Keys(tcbs: seq<Tcb>, ids: seq<int>): (keys: seq<nat>)
    requires InRange(ids, |tcbs|)
    ensures |keys| == |ids| && forall k :: 0 <= k < |ids| ==> keys[k] == tcbs[ids[k]].key
  {
    seq<nat>(|ids|, k requires 0 <= k < |ids| => tcbs[ids[k]].key)
  }

  ghost predicate InRange(ids: seq<int>, n: nat) {
    forall k :: 0 <= k < |ids| ==> 0 <= ids[k] < n
  }

  // ----- list bookkeeping

  function IndexOf<T(==)>(s: seq<T>, x: T): (p: nat)
    requires x in s
    ensures p < |s| && s[p] == x && x !in s[..p]
  {
    if s[0] == x then 0 else 1 + IndexOf(s[1..], x)
  }

  function Without<T(==)>(s: seq<T>, x: T): (r: seq<T>)
    requires x in s
    ensures |r| == |s| - 1
  {
    s[..IndexOf(s, x)] + s[IndexOf(s, x) + 1..]
  }

  /** The lists hold task numbers, no task is on both or twice on one, and the ready list is in key order. */
  ghost predicate Lists(s: System) {
    && s.wait.Valid()
    && (forall t <- s.tcbs :: t.period > 0 && t.met < BYTE)
    && InRange(s.ready, |s.tcbs|) && InRange(s.wait.items, |s.tcbs|)
    && (forall id <- s.ready :: id !in s.wait.items)
    && Distinct(s.ready) && Distinct(s.wait.items)
    && Sorted(Keys(s.tcbs, s.ready))
  }

  /** Every task is on one of the lists, and the current task is a ready one. */
  ghost predicate Placed(s: System) {
    && Lists(s)
    && (forall id :: 0 <= id < |s.tcbs| ==> id in s.ready || id in s.wait.items)
    && (s.running == NOBODY || s.running in s.ready)
  }

  // ----- the steps

  /** prvAddTaskToReadyList for a task that is on no list. Under RTO a task that may skip is not inserted, except that
      at time 0 it goes to the wait list. */
  ghost function MakeReady(alg: Algorithm, s: System, id: int): (r: System)
    requires Lists(s) && 0 <= id < |s.tcbs| && id !in s.ready && id !in s.wait.items
  {
    var t := s.tcbs[id];
    if alg == RTO && !t.Red() then
      if s.now == 0 then s.(wait := s.wait.InsertEnd(id)) else s
    else
      var key := ReadyKey(alg, t, s.now);
      var p := InsertPosition(Keys(s.tcbs, s.ready), key);
      s.(tcbs := s.tcbs[id := t.(key := key)], ready := s.ready[..p] + [id] + s.ready[p..])
  }

  /** addTaskToWaitList */
  ghost function MoveToWait(s: System, id: int): (r: System)
    requires s.wait.Valid() && id in s.ready
  {
    s.(ready := Without(s.ready, id), wait := s.wait.InsertEnd(id))
  }

  /** The tick's charge of the current task, `now` being the new tick count. */
  ghost function Charge(s: System): (r: System)
    requires Placed(s)
  {
    if s.running == NOBODY then s
    else
      var t := s.tcbs[s.running];
      var left := if t.remaining > 0 then t.remaining - 1 else 0;
      if left > 0 || s.now - t.start > t.period then s.(tcbs := s.tcbs[s.running := t.(remaining := left)])
      else
        var done := t.(remaining := 0, met := CountMet(t.constraint, t.met), hits := t.hits + {t.start / t.period});
        MoveToWait(s.(tcbs := s.tcbs[s.running := done]), s.running)
  }

  /** The body of the loop in killTasks for one ready task. */
  ghost function KillOne(s: System, id: int): (r: System)
    requires Lists(s) && id in s.ready
  {
    var t := s.tcbs[id];
    if t.TooLate(s.now) then
      MoveToWait(s.(tcbs := s.tcbs[id := t.(kills := t.kills + 1, met := 0)], broken := s.broken || t.Red()), id)
    else s
  }

  /** The body of the loop in wakeTasks for one waiting task. */
  ghost function WakeOne(alg: Algorithm, s: System, id: int): (r: System)
    requires Lists(s) && id in s.wait.items
  {
    var t := s.tcbs[id];
    if s.now % t.period != 0 then s
    else
      var released := t.(remaining := t.duration, start := s.now);
      if alg == RTO && !t.Red() then s.(tcbs := s.tcbs[id := released.(met := 0)])
      else
        ReadyFromWait(s, id, released);
        MakeReady(alg, s.(tcbs := s.tcbs[id := released], wait := s.wait.RemoveAt(IndexOf(s.wait.items, id))), id)
  }

  // ----- the lists survive every step

  /** Changing a block that is not in key order, or keeps its key, keeps the lists. */
  lemma UpdateKeepsLists(s: System, id: int, t: Tcb)
    requires Lists(s) && 0 <= id < |s.tcbs| && t.period > 0 && t.met < BYTE
    requires id in s.ready ==> t.key == s.tcbs[id].key
    ensures Lists(s.(tcbs := s.tcbs[id := t]))
  {
    var tcbs := s.tcbs[id := t];
    forall k | 0 <= k < |s.ready|
      ensures tcbs[s.ready[k]].key == s.tcbs[s.ready[k]].key
    {
    }
    assert Keys(tcbs, s.ready) == Keys(s.tcbs, s.ready);
  }

  lemma WithoutContents<T>(s: seq<T>, x: T)
    requires Distinct(s) && x in s
    ensures Distinct(Without(s, x))
    ensures forall y :: y in Without(s, x) <==> y in s && y != x
  {
    var p := IndexOf(s, x);
    forall y | y in s && y != x
      ensures y in Without(s, x)
    {
      var k :| 0 <= k < |s| && s[k] == y;
      assert Without(s, x)[if k < p then k else k - 1] == y;
    }
  }

  lemma WithoutKeepsSorted(tcbs: seq<Tcb>, ids: seq<int>, id: int)
    requires InRange(ids, |tcbs|)
    requires id in ids && Sorted(Keys(tcbs, ids))
    ensures InRange(Without(ids, id), |tcbs|)
    ensures Sorted(Keys(tcbs, Without(ids, id)))
  {
    var p := IndexOf(ids, id);
    var keys := Keys(tcbs, ids);
    assert Keys(tcbs, Without(ids, id)) == keys[..p] + keys[p + 1..];
  }

  lemma MoveToWaitKeepsLists(s: System, id: int)
    requires Lists(s) && id in s.ready
    ensures var r := MoveToWait(s, id);
            && Lists(r)
            && (forall i :: i in r.ready <==> i in s.ready && i != id)
            && (forall i :: i in r.wait.items <==> i in s.wait.items || i == id)
  {
    WithoutContents(s.ready, id);
    WithoutKeepsSorted(s.tcbs, s.ready, id);
    InsertContents(s.wait.items, if s.wait.index == -1 then |s.wait.items| else s.wait.index, id);
    var w := s.wait.items;
    assert w[..|w|] + [id] + w[|w|..] == w + [id];
  }

  lemma ReadyFromWait(s: System, id: int, t: Tcb)
    requires Lists(s) && id in s.wait.items && t.period > 0 && t.met < BYTE
    ensures var r := s.(tcbs := s.tcbs[id := t], wait := s.wait.RemoveAt(IndexOf(s.wait.items, id)));
            && Lists(r) && id !in r.ready
            && (forall i :: i in r.wait.items <==> i in s.wait.items && i != id)
  {
    UpdateKeepsLists(s, id, t);
    WithoutContents(s.wait.items, id);
  }

  lemma KeysOfConcat(tcbs: seq<Tcb>, a: seq<int>, b: seq<int>)
    requires InRange(a, |tcbs|) && InRange(b, |tcbs|)
    ensures InRange(a + b, |tcbs|) && Keys(tcbs, a + b) == Keys(tcbs, a) + Keys(tcbs, b)
  {
  }

  lemma KeysIgnoreOthers(tcbs: seq<Tcb>, ids: seq<int>, id: int, t: Tcb)
    requires InRange(ids, |tcbs|) && 0 <= id < |tcbs| && id !in ids
    ensures Keys(tcbs[id := t], ids) == Keys(tcbs, ids)
  {
  }

  lemma InsertKeepsKeyOrder(tcbs: seq<Tcb>, ids: seq<int>, id: int, t: Tcb)
    requires InRange(ids, |tcbs|) && 0 <= id < |tcbs| && id !in ids && Sorted(Keys(tcbs, ids))
    ensures var p := InsertPosition(Keys(tcbs, ids), t.key);
            var r := ids[..p] + [id] + ids[p..];
            InRange(r, |tcbs|) && Sorted(Keys(tcbs[id := t], r))
  {
    hide Keys, InsertPosition;
    var keys := Keys(tcbs, ids);
    var p := InsertPosition(keys, t.key);
    var tcbs' := tcbs[id := t];
    var a, b := ids[..p], ids[p..];
    assert ids == a + b;
    KeysIgnoreOthers(tcbs, ids, id, t);
    KeysOfConcat(tcbs', a, b);
    KeysOfConcat(tcbs', a, [id]);
    KeysOfConcat(tcbs', a + [id], b);
    assert Keys(tcbs', a) == keys[..p] && Keys(tcbs', b) == keys[p..];
    assert Keys(tcbs', [id]) == [t.key];
    InsertKeepsSortedAndStable(keys, t.key);
  }

  lemma MakeReadyKeepsLists(alg: Algorithm, s: System, id: int)
    requires Lists(s) && 0 <= id < |s.tcbs| && id !in s.ready && id !in s.wait.items
    requires alg == RTO ==> s.tcbs[id].Red()
    ensures var r := MakeReady(alg, s, id);
            && Lists(r)
            && (forall i :: i in r.ready <==> i in s.ready || i == id)
            && r == s.(tcbs := s.tcbs[id := s.tcbs[id].(key := ReadyKey(alg, s.tcbs[id], s.now))], ready := r.ready)
  {
    hide ReadyKey;
    var t := s.tcbs[id];
    var t' := t.(key := ReadyKey(alg, t, s.now));
    var p := InsertPosition(Keys(s.tcbs, s.ready), t'.key);
    InsertKeepsKeyOrder(s.tcbs, s.ready, id, t');
    InsertContents(s.ready, p, id);
  }

  /** Tasks with equal keys stand in the order in which they became ready: a new one goes behind every key that is not
      larger than its own, and before the first that is. */
  lemma BehindEqualKeys(alg: Algorithm, s: System, id: int)
    requires Lists(s) && 0 <= id < |s.tcbs| && id !in s.ready && id !in s.wait.items
    requires alg == RTO ==> s.tcbs[id].Red()
    ensures var r := MakeReady(alg, s, id);
            exists p :: 0 <= p <= |s.ready| && r.ready == s.ready[..p] + [id] + s.ready[p..] && |r.tcbs| == |s.tcbs|
                        && (forall k :: 0 <= k < p ==> s.tcbs[s.ready[k]].key <= r.tcbs[id].key)
                        && (p < |s.ready| ==> r.tcbs[id].key < s.tcbs[s.ready[p]].key)
  {
    hide ReadyKey;
    var keys := Keys(s.tcbs, s.ready);
    var p := InsertPosition(keys, ReadyKey(alg, s.tcbs[id], s.now));
    assert forall k :: 0 <= k < |s.ready| ==> keys[k] == s.tcbs[s.ready[k]].key;
    assert MakeReady(alg, s, id).ready == s.ready[..p] + [id] + s.ready[p..];
  }

  /** A task that skips at time 0 goes to the wait list. */
  lemma WaitingFromStart(s: System, id: int)
    requires Lists(s) && 0 <= id < |s.tcbs| && id !in s.ready && id !in s.wait.items
    ensures var r := s.(wait := s.wait.InsertEnd(id));
            Lists(r) && forall i :: i in r.wait.items <==> i in s.wait.items || i == id
  {
    var w := s.wait.items;
    InsertContents(w, if s.wait.index == -1 then |w| else s.wait.index, id);
    assert w[..|w|] + [id] + w[|w|..] == w + [id];
  }
}
