/** One tick seen from one task: whatever the order of the lists, each task is charged, killed and woken on its own. */
module PeriodicTasks {
  import opened KernelList
  import opened WeaklyHard
  import opened Periodic

  /** A task control block, and whether its task is on the ready list (otherwise it waits). */
  datatype TaskState = TaskState(tcb: Tcb, ready: bool)

  ghost function Local(s: System, i: int): (ts: TaskState)
    requires 0 <= i < |s.tcbs|
  {
    TaskState(s.tcbs[i], i in s.ready)
  }

  function ChargeTask(now: nat, ts: TaskState, running: bool): TaskState {
    if !running then ts
    else
      var left := if ts.tcb.remaining > 0 then ts.tcb.remaining - 1 else 0;
      if left > 0 || now - ts.tcb.start > ts.tcb.period || ts.tcb.period == 0 || ts.tcb.met >= BYTE then
        ts.(tcb := ts.tcb.(remaining := left))
      else
        TaskState(ts.tcb.(remaining := 0, met := CountMet(ts.tcb.constraint, ts.tcb.met),
                          hits := ts.tcb.hits + {ts.tcb.start / ts.tcb.period}), false)
  }

  predicate Killed(now: nat, ts: TaskState) {
    ts.ready && ts.tcb.TooLate(now)
  }

  function KillTask(now: nat, ts: TaskState): TaskState {
    if Killed(now, ts) then TaskState(ts.tcb.(kills := ts.tcb.kills + 1, met := 0), false) else ts
  }

  function WakeTask(alg: Algorithm, now: nat, ts: TaskState): TaskState {
    if ts.ready || ts.tcb.period == 0 || now % ts.tcb.period != 0 then ts
    else
      var released := ts.tcb.(remaining := ts.tcb.duration, start := now);
      if alg == RTO && !ts.tcb.Red() then TaskState(released.(met := 0), false)
      else TaskState(released.(key := ReadyKey(alg, released, now)), true)
  }

  function TickTask(alg: Algorithm, now: nat, ts: TaskState, running: bool): TaskState {
    WakeTask(alg, now, KillTask(now, ChargeTask(now, ts, running)))
  }

  // ----- each loop body changes one task

  /** `r` is `s` with some tasks moved between the lists and their blocks changed, none lost. */
  ghost predicate SameTasks(s: System, r: System) {
    && Lists(r) && r.now == s.now && r.running == s.running && |r.tcbs| == |s.tcbs|
    && (forall i :: i in r.ready || i in r.wait.items <==> i in s.ready || i in s.wait.items)
  }

  lemma ChargeLocal(s: System)
    requires Placed(s)
    ensures var r := Charge(s);
            && SameTasks(s, r) && r.broken == s.broken
            && (forall i {:trigger Local(r, i)} :: 0 <= i < |s.tcbs| ==>
                  Local(r, i) == ChargeTask(s.now, Local(s, i), i == s.running))
  {
    if s.running != NOBODY {
      var t := s.tcbs[s.running];
      var left := if t.remaining > 0 then t.remaining - 1 else 0;
      if left > 0 || s.now - t.start > t.period {
        UpdateKeepsLists(s, s.running, t.(remaining := left));
      } else {
        var done := t.(remaining := 0, met := CountMet(t.constraint, t.met), hits := t.hits + {t.start / t.period});
        UpdateKeepsLists(s, s.running, done);
        MoveToWaitKeepsLists(s.(tcbs := s.tcbs[s.running := done]), s.running);
      }
    }
  }

  lemma KillOneLocal(s: System, id: int)
    requires Lists(s) && id in s.ready
    ensures var r := KillOne(s, id);
            && SameTasks(s, r)
            && (r.broken <==> s.broken || (Killed(s.now, Local(s, id)) && s.tcbs[id].Red()))
            && (forall i {:trigger Local(r, i)} :: 0 <= i < |s.tcbs| ==>
                  Local(r, i) == if i == id then KillTask(s.now, Local(s, i)) else Local(s, i))
  {
    var t := s.tcbs[id];
    if t.TooLate(s.now) {
      var killed := t.(kills := t.kills + 1, met := 0);
      UpdateKeepsLists(s, id, killed);
      MoveToWaitKeepsLists(s.(tcbs := s.tcbs[id := killed], broken := s.broken || t.Red()), id);
    }
  }

  lemma WakeOneLocal(alg: Algorithm, s: System, id: int)
    requires Lists(s) && id in s.wait.items
    ensures var r := WakeOne(alg, s, id);
            && SameTasks(s, r) && r.broken == s.broken
            && (forall i {:trigger Local(r, i)} :: 0 <= i < |s.tcbs| ==>
                  Local(r, i) == if i == id then WakeTask(alg, s.now, Local(s, i)) else Local(s, i))
            && (forall i <- s.wait.items :: i != id ==> i in r.wait.items)
  {
    hide ReadyKey;
    var t := s.tcbs[id];
    if s.now % t.period == 0 {
      var released := t.(remaining := t.duration, start := s.now);
      if alg == RTO && !t.Red() {
        UpdateKeepsLists(s, id, released.(met := 0));
      } else {
        ReadyFromWait(s, id, released);
        MakeReadyKeepsLists(alg,
          s.(tcbs := s.tcbs[id := released], wait := s.wait.RemoveAt(IndexOf(s.wait.items, id))), id);
      }
    }
  }

  // ----- the loops

  /** killTasks over a snapshot of the ready list. */
  ghost function KillEach(s: System, todo: seq<int>): (r: System)
    requires Lists(s) && Distinct(todo) && (forall id <- todo :: id in s.ready)
    decreases |todo|
  {
    if todo == [] then s
    else
      KillOneLocal(s, todo[0]);
      Others(s, KillOne(s, todo[0]), todo);
      KillEach(KillOne(s, todo[0]), todo[1..])
  }

  lemma KillEachStep(s: System, todo: seq<int>)
    requires Lists(s) && Distinct(todo) && todo != [] && (forall id <- todo :: id in s.ready)
    ensures var q := KillOne(s, todo[0]);
            && Lists(q) && Distinct(todo[1..]) && (forall id <- todo[1..] :: id in q.ready)
            && KillEach(s, todo) == KillEach(q, todo[1..])
  {
    hide KillOne;
    KillOneLocal(s, todo[0]);
    Others(s, KillOne(s, todo[0]), todo);
  }

  lemma KillEachDone(s: System, todo: seq<int>)
    requires Lists(s) && todo == []
    ensures KillEach(s, todo) == s
  {
  }

  lemma {:induction false} KillEachLocal(s: System, todo: seq<int>)
    requires Lists(s) && Distinct(todo) && (forall id <- todo :: id in s.ready)
    ensures var r := KillEach(s, todo);
            && SameTasks(s, r)
            && (r.broken <==> s.broken || exists id <- todo :: Killed(s.now, Local(s, id)) && s.tcbs[id].Red())
            && (forall i {:trigger Local(r, i)} :: 0 <= i < |s.tcbs| ==>
                  Local(r, i) == if i in todo then KillTask(s.now, Local(s, i)) else Local(s, i))
    decreases |todo|
  {
    hide KillOne;
    if todo != [] {
      var q := KillOne(s, todo[0]);
      KillOneLocal(s, todo[0]);
      Others(s, q, todo);
      KillEachLocal(q, todo[1..]);
      forall id <- todo[1..]
        ensures q.tcbs[id] == s.tcbs[id] && Local(q, id) == Local(s, id)
      {
        assert Local(q, id).tcb == q.tcbs[id];
      }
    }
  }

  /** wakeTasks over a snapshot of the wait list. */
  ghost function WakeEach(alg: Algorithm, s: System, todo: seq<int>): (r: System)
    requires Lists(s) && Distinct(todo) && (forall id <- todo :: id in s.wait.items)
    decreases |todo|
  {
    if todo == [] then s
    else
      WakeOneLocal(alg, s, todo[0]);
      OthersWait(alg, s, todo);
      WakeEach(alg, WakeOne(alg, s, todo[0]), todo[1..])
  }

  lemma WakeEachStep(alg: Algorithm, s: System, todo: seq<int>)
    requires Lists(s) && Distinct(todo) && todo != [] && (forall id <- todo :: id in s.wait.items)
    ensures var q := WakeOne(alg, s, todo[0]);
            && Lists(q) && Distinct(todo[1..]) && (forall id <- todo[1..] :: id in q.wait.items)
            && WakeEach(alg, s, todo) == WakeEach(alg, q, todo[1..])
  {
    hide WakeOne;
    WakeOneLocal(alg, s, todo[0]);
    OthersWait(alg, s, todo);
  }

  lemma WakeEachDone(alg: Algorithm, s: System, todo: seq<int>)
    requires Lists(s) && todo == []
    ensures WakeEach(alg, s, todo) == s
  {
  }

  lemma {:induction false} WakeEachLocal(alg: Algorithm, s: System, todo: seq<int>)
    requires Lists(s) && Distinct(todo) && (forall id <- todo :: id in s.wait.items)
    ensures var r := WakeEach(alg, s, todo);
            && SameTasks(s, r) && r.broken == s.broken
            && (forall i {:trigger Local(r, i)} :: 0 <= i < |s.tcbs| ==>
                  Local(r, i) == if i in todo then WakeTask(alg, s.now, Local(s, i)) else Local(s, i))
    decreases |todo|
  {
    hide WakeOne, ReadyKey;
    if todo != [] {
      WakeOneLocal(alg, s, todo[0]);
      OthersWait(alg, s, todo);
      WakeEachLocal(alg, WakeOne(alg, s, todo[0]), todo[1..]);
      SplitFirst(todo);
    }
  }

  lemma OthersWait(alg: Algorithm, s: System, todo: seq<int>)
    requires Lists(s) && Distinct(todo) && todo != [] && (forall id <- todo :: id in s.wait.items)
    ensures forall id <- todo[1..] :: id in WakeOne(alg, s, todo[0]).wait.items
  {
    WakeOneLocal(alg, s, todo[0]);
    SplitFirst(todo);
  }

  lemma SplitFirst(todo: seq<int>)
    requires Distinct(todo) && todo != []
    ensures forall id :: id in todo <==> id == todo[0] || id in todo[1..]
    ensures todo[0] !in todo[1..]
  {
    assert todo == [todo[0]] + todo[1..];
  }

  lemma Others(s: System, r: System, todo: seq<int>)
    requires Lists(s) && SameTasks(s, r) && Distinct(todo) && todo != [] && (forall id <- todo :: id in s.ready)
    requires forall i {:trigger Local(r, i)} :: 0 <= i < |s.tcbs| && i != todo[0] ==> Local(r, i) == Local(s, i)
    ensures forall id <- todo[1..] :: id in r.ready
    ensures forall id :: id in todo <==> id == todo[0] || id in todo[1..]
    ensures todo[0] !in todo[1..]
  {
    SplitFirst(todo);
    forall id <- todo[1..]
      ensures id in r.ready
    {
      assert id in todo;
      assert Local(r, id) == Local(s, id);
    }
  }

  ghost function KillTasks(s: System): System
    requires Lists(s)
  {
    KillEach(s, s.ready)
  }

  /** After its round over the wait list, wakeTasks leaves the walking index on the first of the tasks that stay. */
  ghost function WakeTasks(alg: Algorithm, s: System): System
    requires Lists(s)
  {
    var r := WakeEach(alg, s, s.wait.items);
    r.(wait := KList(r.wait.items, if r.wait.items == [] then -1 else 0))
  }

  /** vTaskSwitchContext */
  ghost function Switch(s: System): System {
    s.(running := if s.ready == [] then NOBODY else s.ready[0])
  }

  /** One tick interrupt: xTaskIncrementTick and then the context switch. */
  ghost function Tick(alg: Algorithm, s: System): (r: System)
    requires Placed(s)
  {
    var charged := s.(now := s.now + 1);
    ChargeAndKillLocal(s);
    Switch(WakeTasks(alg, KillTasks(Charge(charged))))
  }

  /** The task the context switch picks: a ready task whose key no ready task undercuts, and idle only if none is ready. */
  ghost predicate PicksLeastKey(s: System) {
    if s.running == NOBODY then forall i :: 0 <= i < |s.tcbs| ==> !Local(s, i).ready
    else && 0 <= s.running < |s.tcbs| && Local(s, s.running).ready
         && forall i :: 0 <= i < |s.tcbs| && Local(s, i).ready ==> s.tcbs[s.running].key <= s.tcbs[i].key
  }

  lemma SwitchPicksLeastKey(s: System)
    requires Lists(s)
    ensures PicksLeastKey(Switch(s))
  {
    var r := Switch(s);
    var keys := Keys(s.tcbs, s.ready);
    forall i | 0 <= i < |s.tcbs| && Local(r, i).ready
      ensures s.ready != [] && s.tcbs[s.ready[0]].key <= s.tcbs[i].key
    {
      var k :| 0 <= k < |s.ready| && s.ready[k] == i;
      assert keys[0] <= keys[k];
    }
  }

  lemma KillTasksLocal(s: System)
    requires Lists(s)
    ensures var r := KillTasks(s);
            && SameTasks(s, r)
            && (r.broken <==> s.broken || exists i :: 0 <= i < |s.tcbs| && Killed(s.now, Local(s, i)) && s.tcbs[i].Red())
            && (forall i {:trigger Local(r, i)} :: 0 <= i < |s.tcbs| ==> Local(r, i) == KillTask(s.now, Local(s, i)))
  {
    KillEachLocal(s, s.ready);
  }

  lemma WakeTasksLocal(alg: Algorithm, s: System)
    requires Lists(s) && forall i :: 0 <= i < |s.tcbs| ==> i in s.ready || i in s.wait.items
    ensures var r := WakeTasks(alg, s);
            && SameTasks(s, r) && r.broken == s.broken
            && (forall i {:trigger Local(r, i)} :: 0 <= i < |s.tcbs| ==>
                  Local(r, i) == WakeTask(alg, s.now, Local(s, i)))
  {
    WakeEachLocal(alg, s, s.wait.items);
    var w := WakeEach(alg, s, s.wait.items);
    var r := WakeTasks(alg, s);
    forall i | 0 <= i < |s.tcbs|
      ensures Local(r, i) == WakeTask(alg, s.now, Local(s, i))
    {
      assert Local(r, i) == Local(w, i);
    }
  }

  /** The tick at `now` kills the job of this task while it is red. */
  predicate KillsRed(now: nat, ts: TaskState, running: bool) {
    Killed(now, ChargeTask(now, ts, running)) && ChargeTask(now, ts, running).tcb.Red()
  }

  /** The next tick kills some red job. */
  ghost predicate KillsSomeRed(s: System) {
    exists i :: 0 <= i < |s.tcbs| && KillsRed(s.now + 1, Local(s, i), i == s.running)
  }

  lemma ChargeAndKillLocal(s: System)
    requires Placed(s)
    ensures var now := s.now + 1;
            Placed(s.(now := now)) && Lists(Charge(s.(now := now)))
    ensures var now := s.now + 1;
            var r := KillTasks(Charge(s.(now := now)));
            && SameTasks(s.(now := now), r)
            && (forall i {:trigger Local(r, i)} :: 0 <= i < |s.tcbs| ==>
                  Local(r, i) == KillTask(now, ChargeTask(now, Local(s, i), i == s.running)))
            && (r.broken <==> s.broken || KillsSomeRed(s))
  {
    hide Charge, KillTasks, ChargeTask, KillTask;
    var s0 := s.(now := s.now + 1);
    ChargeLocal(s0);
    var s1 := Charge(s0);
    KillTasksLocal(s1);
    forall i | 0 <= i < |s.tcbs|
      ensures Local(s1, i) == ChargeTask(s0.now, Local(s, i), i == s.running)
    {
      assert Local(s0, i) == Local(s, i);
    }
    forall i | 0 <= i < |s.tcbs|
      ensures KillsRed(s0.now, Local(s, i), i == s.running) <==> Killed(s1.now, Local(s1, i)) && s1.tcbs[i].Red()
    {
      assert Local(s1, i).tcb == s1.tcbs[i];
    }
  }

  lemma ListsIgnoreRunning(s: System, running: int)
    requires Lists(s)
    ensures Lists(s.(running := running))
  {
  }

  /** A whole tick is `TickTask` on every task, whatever the order of the lists, and `broken` is set exactly by the
      killing of a red job. */
  lemma TickIsTaskwise(alg: Algorithm, s: System)
    requires Placed(s)
    ensures var r := Tick(alg, s);
            && Placed(r) && r.now == s.now + 1 && |r.tcbs| == |s.tcbs| && PicksLeastKey(r)
            && (forall i {:trigger Local(r, i)} :: 0 <= i < |s.tcbs| ==>
                  Local(r, i) == TickTask(alg, r.now, Local(s, i), i == s.running))
            && (r.broken <==> s.broken || KillsSomeRed(s))
  {
    hide Lists, KillTasks, Charge, WakeTasks, ChargeTask, KillTask, WakeTask;
    ChargeAndKillLocal(s);
    var s2 := KillTasks(Charge(s.(now := s.now + 1)));
    WakeTasksLocal(alg, s2);
    var s3 := WakeTasks(alg, s2);
    SwitchPicksLeastKey(s3);
    var r := Switch(s3);
    assert r == Tick(alg, s);
    ListsIgnoreRunning(s3, r.running);
    assert Placed(r);
    forall i | 0 <= i < |s.tcbs|
      ensures Local(r, i) == TickTask(alg, r.now, Local(s, i), i == s.running)
    {
      assert Local(r, i) == Local(s3, i);
      assert Local(s3, i) == WakeTask(alg, s2.now, Local(s2, i));
    }
  }

  // ----- runs

  function NewTcb(p: Params): Tcb {
    Tcb(p.period, p.duration, p.constraint, 0, p.duration, 0, 0, 0, {})
  }

  function NewTask(alg: Algorithm, p: Params): TaskState
    requires p.Valid()
  {
    var t := NewTcb(p);
    if alg == RTO && !t.Red() then TaskState(t, false) else TaskState(t.(key := ReadyKey(alg, t, 0)), true)
  }

  ghost predicate ValidTaskSet(ps: seq<Params>) {
    forall p <- ps :: p.Valid()
  }

  /** xTaskCreatePeriodic for every task before the scheduler starts. */
  ghost function Create(alg: Algorithm, ps: seq<Params>): (s: System)
    requires ValidTaskSet(ps)
    ensures Placed(s) && s.now == 0 && |s.tcbs| == |ps| && s.running == NOBODY && !s.broken
    ensures forall i {:trigger Local(s, i)} :: 0 <= i < |ps| ==> Local(s, i) == NewTask(alg, ps[i])
  {
    if ps == [] then System(0, [], [], KList([], -1), NOBODY, false)
    else
      var n := |ps| - 1;
      var s := Create(alg, ps[..n]);
      CreateOne(alg, s, ps[n]);
      AddNewTask(alg, s, NewTcb(ps[n]))
  }

  /** prvAddNewTaskToReadyList: the new task gets the next number. */
  ghost function AddNewTask(alg: Algorithm, s: System, t: Tcb): System
    requires Placed(s) && t.period > 0 && t.met < BYTE
  {
    AppendKeepsLists(s, t);
    MakeReady(alg, s.(tcbs := s.tcbs + [t]), |s.tcbs|)
  }

  lemma AppendKeepsLists(s: System, t: Tcb)
    requires Lists(s) && t.period > 0 && t.met < BYTE
    ensures Lists(s.(tcbs := s.tcbs + [t])) && |s.tcbs| !in s.ready && |s.tcbs| !in s.wait.items
  {
    assert Keys(s.tcbs + [t], s.ready) == Keys(s.tcbs, s.ready);
  }

  lemma CreateOne(alg: Algorithm, s: System, p: Params)
    requires Placed(s) && p.Valid() && s.now == 0 && s.running == NOBODY
    ensures var r := AddNewTask(alg, s, NewTcb(p));
            && Placed(r) && r.now == 0 && |r.tcbs| == |s.tcbs| + 1 && r.running == NOBODY && r.broken == s.broken
            && (forall i {:trigger Local(r, i)} :: 0 <= i < |s.tcbs| ==> Local(r, i) == Local(s, i))
            && Local(r, |s.tcbs|) == NewTask(alg, p)
  {
    hide ReadyKey;
    var n := |s.tcbs|;
    var t := NewTcb(p);
    var s' := s.(tcbs := s.tcbs + [t]);
    AppendKeepsLists(s, t);
    if alg == RTO && !t.Red() {
      WaitingFromStart(s', n);
    } else {
      MakeReadyKeepsLists(alg, s', n);
    }
  }

  /** The system after the context switch of tick n. One context switch precedes the first tick. */
  ghost function Run(alg: Algorithm, ps: seq<Params>, n: nat): (s: System)
    requires ValidTaskSet(ps)
    ensures Placed(s) && s.now == n && |s.tcbs| == |ps| && PicksLeastKey(s)
  {
    if n == 0 then
      SwitchPicksLeastKey(Create(alg, ps));
      Switch(Create(alg, ps))
    else
      TickIsTaskwise(alg, Run(alg, ps, n - 1));
      Tick(alg, Run(alg, ps, n - 1))
  }

  // ----- what a run looks like once the lists are forgotten

  datatype Snapshot = Snapshot(now: nat, tasks: seq<TaskState>, running: int, broken: bool)

  ghost function Snap(s: System): (v: Snapshot)
    ensures |v.tasks| == |s.tcbs| && v.now == s.now && v.running == s.running && v.broken == s.broken
    ensures forall i {:trigger v.tasks[i]} :: 0 <= i < |v.tasks| ==> v.tasks[i] == Local(s, i)
  {
    Snapshot(s.now, seq(|s.tcbs|, i requires 0 <= i < |s.tcbs| => Local(s, i)), s.running, s.broken)
  }

  /** The running task is a ready one with the least key; nobody runs only if nobody is ready. */
  ghost predicate Picked(v: Snapshot) {
    if v.running == NOBODY then forall i :: 0 <= i < |v.tasks| ==> !v.tasks[i].ready
    else && 0 <= v.running < |v.tasks| && v.tasks[v.running].ready
         && forall i :: 0 <= i < |v.tasks| && v.tasks[i].ready ==> v.tasks[v.running].tcb.key <= v.tasks[i].tcb.key
  }

  /** One tick leads from `v` to `v'`. */
  ghost predicate Ticked(alg: Algorithm, v: Snapshot, v': Snapshot) {
    && v'.now == v.now + 1 && |v'.tasks| == |v.tasks|
    && (forall i {:trigger v'.tasks[i]} :: 0 <= i < |v.tasks| ==>
          v'.tasks[i] == TickTask(alg, v'.now, v.tasks[i], i == v.running))
    && (v'.broken <==> v.broken || exists i :: 0 <= i < |v.tasks| && KillsRed(v'.now, v.tasks[i], i == v.running))
  }

  /** What `Create` and the first context switch establish. */
  ghost predicate Started(alg: Algorithm, ps: seq<Params>, v: Snapshot)
    requires ValidTaskSet(ps)
  {
    && v.now == 0 && |v.tasks| == |ps| && !v.broken && Picked(v)
    && forall i {:trigger v.tasks[i]} :: 0 <= i < |ps| ==> v.tasks[i] == NewTask(alg, ps[i])
  }

  /** The snapshots of a run, one for each tick from 0 on. */
  ghost predicate History(alg: Algorithm, ps: seq<Params>, h: seq<Snapshot>)
    requires ValidTaskSet(ps)
  {
    && h != [] && Started(alg, ps, h[0])
    && forall k {:trigger h[k]} :: 0 <= k < |h| - 1 ==> Ticked(alg, h[k], h[k + 1]) && Picked(h[k + 1])
  }

  lemma RunStarts(alg: Algorithm, ps: seq<Params>)
    requires ValidTaskSet(ps)
    ensures Started(alg, ps, Snap(Run(alg, ps, 0)))
  {
    var s, c := Run(alg, ps, 0), Create(alg, ps);
    PickedSnap(s);
    forall i | 0 <= i < |ps|
      ensures Snap(s).tasks[i] == NewTask(alg, ps[i])
    {
      assert Local(s, i) == Local(c, i);
    }
  }

  lemma RunSteps(alg: Algorithm, ps: seq<Params>, n: nat)
    requires ValidTaskSet(ps)
    ensures Ticked(alg, Snap(Run(alg, ps, n)), Snap(Run(alg, ps, n + 1))) && Picked(Snap(Run(alg, ps, n + 1)))
  {
    var s := Run(alg, ps, n);
    TickIsTaskwise(alg, s);
    PickedSnap(Tick(alg, s));
    TickedSnap(alg, s, Tick(alg, s));
  }

  lemma ExtendHistory(alg: Algorithm, ps: seq<Params>, h: seq<Snapshot>, v: Snapshot)
    requires ValidTaskSet(ps) && History(alg, ps, h)
    requires Ticked(alg, h[|h| - 1], v) && Picked(v)
    ensures History(alg, ps, h + [v])
  {
  }

  /** Every run has a history, which ends in the run's state. */
  lemma {:induction false} RunHasHistory(alg: Algorithm, ps: seq<Params>, n: nat) returns (h: seq<Snapshot>)
    requires ValidTaskSet(ps)
    ensures History(alg, ps, h) && |h| == n + 1 && h[n] == Snap(Run(alg, ps, n))
  {
    hide Run;
    if n == 0 {
      RunStarts(alg, ps);
      h := [Snap(Run(alg, ps, 0))];
    } else {
      var g := RunHasHistory(alg, ps, n - 1);
      RunSteps(alg, ps, n - 1);
      ExtendHistory(alg, ps, g, Snap(Run(alg, ps, n)));
      h := g + [Snap(Run(alg, ps, n))];
    }
  }

  lemma PickedSnap(s: System)
    requires PicksLeastKey(s)
    ensures Picked(Snap(s))
  {
    var v := Snap(s);
    forall i | 0 <= i < |v.tasks|
      ensures v.tasks[i] == Local(s, i) && v.tasks[i].tcb == s.tcbs[i]
    {
    }
  }

  lemma TickedSnap(alg: Algorithm, s: System, r: System)
    requires r.now == s.now + 1 && |r.tcbs| == |s.tcbs|
    requires forall i {:trigger Local(r, i)} :: 0 <= i < |s.tcbs| ==>
               Local(r, i) == TickTask(alg, r.now, Local(s, i), i == s.running)
    requires r.broken <==> s.broken || KillsSomeRed(s)
    ensures Ticked(alg, Snap(s), Snap(r))
  {
    var v := Snap(s);
    forall i | 0 <= i < |s.tcbs|
      ensures v.tasks[i] == Local(s, i)
    {
    }
  }
}
