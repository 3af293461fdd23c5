/** The kernel state of tasks.c as far as periodic tasks change it, updated in place. Every method is proved against the
    function of `Periodic` or `PeriodicTasks` that the analysis uses. Lists are `KList` values; `PointerList` proves the
    linked lists against the same operations. */
module PeriodicKernel {
  import opened KernelList
  import opened WeaklyHard
  import opened Periodic
  import opened PeriodicTasks

  const MAX_PRIORITIES: nat := 7

  /** mainTASK_PRIORITY, the priority of all periodic tasks; killTasks walks this ready list only. */
  const PERIODIC: nat := 1

  class Kernel {
    const alg: Algorithm
    var tickCount: nat
    var tcbs: seq<Tcb>
    /** pxReadyTasksLists; the idle task, NOBODY, is the only entry of list 0. */
    var readyLists: seq<KList<int>>
    var waitList: KList<int>
    var topReadyPriority: nat
    var current: int
    var weaklyHardBroken: bool

    ghost predicate Valid()
      reads this
    {
      && |readyLists| == MAX_PRIORITIES
      && (forall p :: 0 <= p < MAX_PRIORITIES ==> readyLists[p].Valid())
      && readyLists[0].items == [NOBODY]
      && (forall p :: PERIODIC < p < MAX_PRIORITIES ==> readyLists[p].items == [])
      && topReadyPriority < MAX_PRIORITIES
      && (forall p :: topReadyPriority < p < MAX_PRIORITIES ==> readyLists[p].items == [])
      && Lists(View())
    }

    ghost function View(): System
      requires |readyLists| == MAX_PRIORITIES
      reads this
    {
      System(tickCount, tcbs, readyLists[PERIODIC].items, waitList, current, weaklyHardBroken)
    }

    /** prvInitialiseTaskLists, with the idle task in place */
    constructor (alg: Algorithm)
      ensures Valid() && this.alg == alg && View() == Create(alg, [])
    {
      this.alg := alg;
      tickCount, tcbs, weaklyHardBroken, current := 0, [], false, NOBODY;
      var none: KList<int> := KList([], -1);
      readyLists := [KList([NOBODY], -1), none, none, none, none, none, none];
      waitList, topReadyPriority := none, 0;
    }

    /** xTaskCreatePeriodic before the scheduler runs: the newest task becomes the current one, until the first context
        switch chooses. */
    method CreatePeriodic(p: Params)
      requires Valid() && p.Valid() && Placed(View().(running := NOBODY))
      modifies this
      ensures Valid() && current == |old(tcbs)|
      ensures View().(running := NOBODY) == AddNewTask(alg, old(View()).(running := NOBODY), NewTcb(p))
    {
      var id := |tcbs|;
      AppendKeepsLists(View(), NewTcb(p));
      current := id;
      tcbs := tcbs + [NewTcb(p)];
      AddTaskToReadyList(id);
    }

    /** prvAddTaskToReadyList with taskRECORD_READY_PRIORITY, for a task that is on no list */
    method AddTaskToReadyList(id: int)
      requires Valid() && 0 <= id < |tcbs| && id !in View().ready && id !in waitList.items
      modifies this
      ensures Valid() && View() == MakeReady(alg, old(View()), id)
      ensures tickCount == old(tickCount)
      ensures tcbs == old(tcbs)[id := old(tcbs)[id].(key := tcbs[id].key)]
      ensures waitList == old(waitList) || (alg == RTO && tickCount == 0)
    {
      hide MakeReady, Lists, ReadyKey, Keys, InsertPosition;
      MakeReadyParts(alg, View(), id);
      if topReadyPriority < PERIODIC {
        topReadyPriority := PERIODIC;
      }
      var t := tcbs[id];
      if alg == RTO && !t.Red() {
        if tickCount == 0 {
          waitList := waitList.InsertEnd(id);
        }
      } else {
        var list := readyLists[PERIODIC];
        var key := ReadyKey(alg, t, tickCount);
        var p := InsertPosition(Keys(tcbs, list.items), key);
        tcbs := tcbs[id := t.(key := key)];
        readyLists := readyLists[PERIODIC := list.InsertAt(p, id)];
      }
    }

    /** addTaskToWaitList */
    method AddTaskToWaitList(id: int)
      requires Valid() && id in View().ready
      modifies this
      ensures Valid() && View() == MoveToWait(old(View()), id) && tickCount == old(tickCount)
      ensures var list := old(readyLists)[PERIODIC]; readyLists[PERIODIC] == list.RemoveAt(IndexOf(list.items, id))
    {
      MoveToWaitKeepsLists(View(), id);
      var list := readyLists[PERIODIC];
      readyLists := readyLists[PERIODIC := list.RemoveAt(IndexOf(list.items, id))];
      waitList := waitList.InsertEnd(id);
    }

    /** check_weakly_hard, of a task about to be killed */
    method CheckWeaklyHard(t: Tcb)
      modifies this`weaklyHardBroken
      ensures weaklyHardBroken == (old(weaklyHardBroken) || t.Red())
    {
      if t.constraint == 0 {
        weaklyHardBroken := true;
        return;
      }
      if t.met < t.constraint - 1 {
        weaklyHardBroken := true;
        return;
      }
    }

    /** The item that listGET_OWNER_OF_NEXT_ENTRY returned last; nothing that is used if the list is empty. */
    static function Entry(list: KList<int>): int
      requires list.Valid()
    {
      if list.index < 0 then NOBODY else list.items[list.index]
    }

    /** The body of the loop in killTasks: a task killed while the walking index stands on it takes the index back by
        one. */
    method JudgeReady(id: int)
      requires Valid() && id in View().ready
      modifies this
      ensures Valid() && View() == KillOne(old(View()), id)
      ensures var list := old(readyLists)[PERIODIC];
              readyLists[PERIODIC]
              == if old(tcbs[id].TooLate(tickCount)) then list.RemoveAt(IndexOf(list.items, id)) else list
    {
      var t := tcbs[id];
      if t.TooLate(tickCount) {
        UpdateKeepsLists(View(), id, t.(kills := t.kills + 1, met := 0));
        CheckWeaklyHard(t);
        tcbs := tcbs[id := t.(kills := t.kills + 1, met := 0)];
        AddTaskToWaitList(id);
      }
    }

    /** One round of the loop in killTasks: the entry under the walking index, and then the step to the next one. */
    method KillNext(ghost kept: seq<int>, ghost todo: seq<int>) returns (ghost kept': seq<int>)
      requires Valid() && Walking(readyLists[PERIODIC], kept, todo) && todo != []
      requires Distinct(todo) && forall id <- todo :: id in View().ready
      modifies this
      ensures Valid() && Walking(readyLists[PERIODIC], kept', todo[1..])
      ensures Distinct(todo[1..]) && forall id <- todo[1..] :: id in View().ready
      ensures KillEach(View(), todo[1..]) == old(KillEach(View(), todo))
    {
      hide KillOne, KillEach, IndexOf, Lists;
      var id := Entry(readyLists[PERIODIC]);
      ghost var list := readyLists[PERIODIC];
      KillEachStep(View(), todo);
      WalkStep(View(), list, kept, todo, View().ready);
      JudgeReady(id);
      kept' := if readyLists[PERIODIC] == list then kept + [id] else kept;
      readyLists := readyLists[PERIODIC := readyLists[PERIODIC].Next()];
    }

    /** killTasks. The walk visits every task that was ready at entry, once, although it takes tasks out on its way. */
    method KillTasks()
      requires Valid()
      modifies this
      ensures Valid() && View() == PeriodicTasks.KillTasks(old(View()))
    {
      hide KillEach, Lists;
      DistinctLists(View());
      ghost var target := KillEach(View(), View().ready);
      ghost var kept, todo := [], View().ready;
      readyLists := readyLists[PERIODIC := readyLists[PERIODIC].Rewind().Next()];
      var n := |readyLists[PERIODIC].items|;
      for i := 0 to n
        invariant Valid() && n - i == |todo| && Walking(readyLists[PERIODIC], kept, todo)
        invariant Distinct(todo) && forall id <- todo :: id in View().ready
        invariant KillEach(View(), todo) == target
      {
        kept := KillNext(kept, todo);
        todo := todo[1..];
      }
      KillEachDone(View(), todo);
    }

    /** The body of the loop in wakeTasks */
    method WakeOneTask(id: int)
      requires Valid() && tickCount > 0 && id in waitList.items
      modifies this
      ensures Valid() && View() == WakeOne(alg, old(View()), id) && tickCount == old(tickCount)
      ensures waitList == old(waitList) || waitList == old(waitList).RemoveAt(IndexOf(old(waitList).items, id))
      ensures var t := old(tcbs)[id];
              if tickCount % t.period != 0 then tcbs == old(tcbs)
              else tcbs[id].remaining == t.duration && tcbs[id].start == tickCount
                   && tcbs[id].hits == t.hits && tcbs[id].kills == t.kills
    {
      hide MakeReady, ReadyKey;
      var t := tcbs[id];
      if tickCount % t.period == 0 {
        var released := t.(remaining := t.duration, start := tickCount);
        if alg == RTO && t.constraint != 0 && t.met >= t.constraint - 1 {
          UpdateKeepsLists(View(), id, released.(met := 0));
          tcbs := tcbs[id := released.(met := 0)];
        } else {
          ReadyFromWait(View(), id, released);
          tcbs := tcbs[id := released];
          waitList := waitList.RemoveAt(IndexOf(waitList.items, id));
          AddTaskToReadyList(id);
        }
      }
    }

    /** One round of the loop in wakeTasks */
    method WakeNext(ghost kept: seq<int>, ghost todo: seq<int>) returns (ghost kept': seq<int>)
      requires Valid() && tickCount > 0 && Walking(waitList, kept, todo) && todo != []
      requires Distinct(todo) && forall id <- todo :: id in View().wait.items
      modifies this
      ensures Valid() && tickCount > 0 && Walking(waitList, kept', todo[1..])
      ensures Distinct(todo[1..]) && forall id <- todo[1..] :: id in View().wait.items
      ensures SameButIndex(WakeEach(alg, View(), todo[1..]), old(WakeEach(alg, View(), todo)))
    {
      hide WakeOne, WakeEach, IndexOf, Lists;
      var id := Entry(waitList);
      ghost var list := waitList;
      WakeEachStep(alg, View(), todo);
      WalkStep(View(), list, kept, todo, View().wait.items);
      WakeOneTask(id);
      kept' := if waitList == list then kept + [id] else kept;
      ListsIgnoreIndex(View(), waitList.Next());
      WakeEachIgnoresIndex(alg, View(), View().(wait := waitList.Next()), todo[1..]);
      waitList := waitList.Next();
    }

    /** wakeTasks, the same kind of walk over the wait list */
    method WakeTasks()
      requires Valid() && tickCount > 0
      modifies this
      ensures Valid() && View() == PeriodicTasks.WakeTasks(alg, old(View()))
    {
      hide WakeEach, Lists;
      DistinctLists(View());
      ghost var target := WakeEach(alg, View(), waitList.items);
      ghost var kept, todo := [], waitList.items;
      var n := |waitList.items|;
      ListsIgnoreIndex(View(), waitList.Rewind().Next());
      WakeEachIgnoresIndex(alg, View(), View().(wait := waitList.Rewind().Next()), todo);
      waitList := waitList.Rewind().Next();
      for i := 0 to n
        invariant Valid() && n - i == |todo| && tickCount > 0 && Walking(waitList, kept, todo)
        invariant Distinct(todo) && forall id <- todo :: id in View().wait.items
        invariant SameButIndex(WakeEach(alg, View(), todo), target)
      {
        kept := WakeNext(kept, todo);
        todo := todo[1..];
      }
      WakeEachDone(alg, View(), todo);
    }

    /** The part of xTaskIncrementTick that concerns periodic tasks: the charge of the current task, the killing and the
        waking */
    method IncrementTick()
      requires Valid() && Placed(View())
      modifies this
      ensures Valid()
      ensures var s := old(View()).(now := old(tickCount) + 1);
              && Placed(s) && Lists(Charge(s)) && Lists(PeriodicTasks.KillTasks(Charge(s)))
              && View() == PeriodicTasks.WakeTasks(alg, PeriodicTasks.KillTasks(Charge(s)))
    {
      ghost var s := View().(now := tickCount + 1);
      ChargeLocal(s);
      KillTasksLocal(Charge(s));
      tickCount := tickCount + 1;
      ChargeCurrent();
      KillTasks();
      WakeTasks();
    }

    method ChargeCurrent()
      requires Valid() && Placed(View())
      modifies this
      ensures Valid() && View() == Charge(old(View())) && tickCount == old(tickCount)
    {
      hide MoveToWait, Lists;
      if current != NOBODY {
        BlockInRange(View(), current);
        var t := tcbs[current];
        if t.remaining > 0 {
          t := t.(remaining := t.remaining - 1);
        }
        var finished := t.remaining == 0 && tickCount - t.start <= t.period;
        if finished {
          t := t.(hits := t.hits + {t.start / t.period});
          if t.constraint != 0 {
            t := t.(met := (t.met + 1) % BYTE);
          }
        }
        UpdateKeepsLists(View(), current, t);
        tcbs := tcbs[current := t];
        if finished {
          AddTaskToWaitList(current);
        }
      }
    }

    /** taskSELECT_HIGHEST_PRIORITY_TASK in vTaskSwitchContext: the head of the highest ready list that is not empty */
    method SwitchContext()
      requires Valid()
      modifies this`current, this`topReadyPriority
      ensures Valid() && View() == Switch(old(View()))
      ensures readyLists[topReadyPriority].items != [] && current == readyLists[topReadyPriority].items[0]
      ensures forall p :: topReadyPriority < p < MAX_PRIORITIES ==> readyLists[p].items == []
    {
      var top: nat := topReadyPriority;
      while readyLists[top].items == []
        invariant top < MAX_PRIORITIES
        invariant forall p :: top < p < MAX_PRIORITIES ==> readyLists[p].items == []
        decreases top
      {
        top := top - 1;
      }
      current := readyLists[top].items[0];
      topReadyPriority := top;
    }

    /** One tick interrupt: the tick and then the context switch of the port */
    method TickInterrupt()
      requires Valid() && Placed(View())
      modifies this
      ensures Valid() && Placed(View()) && View() == Tick(alg, old(View()))
    {
      hide Placed, Lists, Tick, PeriodicTasks.KillTasks, PeriodicTasks.WakeTasks, Charge;
      TickParts(alg, View());
      IncrementTick();
      SwitchContext();
    }
  }

  lemma MakeReadyParts(alg: Algorithm, s: System, id: int)
    requires Lists(s) && 0 <= id < |s.tcbs| && id !in s.ready && id !in s.wait.items
    ensures s.wait.Valid() && s.tcbs[id].period > 0 && InRange(s.ready, |s.tcbs|) && Lists(MakeReady(alg, s, id))
    ensures var t := s.tcbs[id];
            if alg == RTO && !t.Red() then
              MakeReady(alg, s, id) == if s.now == 0 then s.(wait := s.wait.InsertEnd(id)) else s
            else
              var key := ReadyKey(alg, t, s.now);
              var p := InsertPosition(Keys(s.tcbs, s.ready), key);
              && p <= |s.ready|
              && MakeReady(alg, s, id)
                 == s.(tcbs := s.tcbs[id := t.(key := key)], ready := s.ready[..p] + [id] + s.ready[p..])
  {
    if alg == RTO && !s.tcbs[id].Red() {
      WaitingFromStart(s, id);
    } else {
      MakeReadyKeepsLists(alg, s, id);
    }
  }

  lemma TickParts(alg: Algorithm, s: System)
    requires Placed(s)
    ensures Placed(Tick(alg, s))
    ensures var charged := s.(now := s.now + 1);
            && Placed(charged) && Lists(Charge(charged)) && Lists(PeriodicTasks.KillTasks(Charge(charged)))
            && Tick(alg, s) == Switch(PeriodicTasks.WakeTasks(alg, PeriodicTasks.KillTasks(Charge(charged))))
  {
    hide Lists, Charge, PeriodicTasks.KillTasks, PeriodicTasks.WakeTasks, TickTask, KillTask, ChargeTask, KillsSomeRed,
      PicksLeastKey;
    TickIsTaskwise(alg, s);
    ChargeAndKillLocal(s);
  }

  /** The two states differ at most in the walking index of the wait list. */
  ghost predicate SameButIndex(s: System, r: System) {
    s.(wait := s.wait.Rewind()) == r.(wait := r.wait.Rewind())
  }

  /** The index of the wait list does not influence the loop of wakeTasks. */
  lemma {:induction false} WakeEachIgnoresIndex(alg: Algorithm, s: System, r: System, todo: seq<int>)
    requires Lists(s) && Lists(r) && SameButIndex(s, r)
    requires Distinct(todo) && (forall id <- todo :: id in s.wait.items)
    requires alg == RTO ==> s.now > 0
    ensures SameButIndex(WakeEach(alg, s, todo), WakeEach(alg, r, todo))
    decreases |todo|
  {
    hide ReadyKey;
    if todo != [] {
      WakeEachStep(alg, s, todo);
      WakeEachStep(alg, r, todo);
      WakeOneIgnoresIndex(alg, s, r, todo[0]);
      WakeEachIgnoresIndex(alg, WakeOne(alg, s, todo[0]), WakeOne(alg, r, todo[0]), todo[1..]);
    }
  }

  lemma WakeOneIgnoresIndex(alg: Algorithm, s: System, r: System, id: int)
    requires Lists(s) && Lists(r) && SameButIndex(s, r) && id in s.wait.items
    requires alg == RTO ==> s.now > 0
    ensures SameButIndex(WakeOne(alg, s, id), WakeOne(alg, r, id)) && WakeOne(alg, s, id).now == s.now
  {
    hide ReadyKey, IndexOf;
  }

  /** A whole simulation: all tasks are created, the scheduler starts with a context switch, and n ticks follow. */
  method Simulate(alg: Algorithm, ps: seq<Params>, n: nat) returns (kernel: Kernel)
    requires ValidTaskSet(ps)
    ensures kernel.Valid() && kernel.View() == Run(alg, ps, n)
  {
    kernel := new Kernel(alg);
    for i := 0 to |ps|
      invariant fresh(kernel) && kernel.alg == alg && kernel.Valid()
      invariant kernel.View().(running := NOBODY) == Create(alg, ps[..i])
    {
      assert ps[..i + 1][..i] == ps[..i];
      kernel.CreatePeriodic(ps[i]);
    }
    assert ps[..|ps|] == ps;
    kernel.SwitchContext();
    for t := 0 to n
      invariant fresh(kernel) && kernel.alg == alg && kernel.Valid()
      invariant kernel.View() == Run(alg, ps, t)
    {
      kernel.TickInterrupt();
    }
  }

  /** A walk in progress: `kept` has been passed, the index stands on the first of `todo`; after a full round it stands
      on the first item. */
  ghost predicate Walking<T>(list: KList<T>, kept: seq<T>, todo: seq<T>) {
    && list.Valid() && list.items == kept + todo
    && list.index == if todo != [] then |kept| else if kept != [] then 0 else -1
  }

  /** Either the item under the index is passed over, or it is removed and the index, taken back, steps to the next. */
  lemma WalkStep(s: System, list: KList<int>, kept: seq<int>, todo: seq<int>, items: seq<int>)
    requires Lists(s) && (items == s.ready || items == s.wait.items)
    requires Walking(list, kept, todo) && todo != [] && items == list.items
    ensures todo[0] == items[list.index] && todo[0] in items
    ensures Walking(list.Next(), kept + [todo[0]], todo[1..])
    ensures Walking(list.RemoveAt(IndexOf(items, todo[0])).Next(), kept, todo[1..])
  {
    IndexInDistinct(items, |kept|);
    hide Lists, IndexOf;
    WalkOn(list, kept, todo);
  }

  lemma IndexInDistinct<T>(s: seq<T>, p: nat)
    requires Distinct(s) && p < |s|
    ensures IndexOf(s, s[p]) == p
  {
  }

  lemma WalkOn<T>(list: KList<T>, kept: seq<T>, todo: seq<T>)
    requires Walking(list, kept, todo) && todo != []
    ensures todo[0] == list.items[list.index] && list.index == |kept|
    ensures Walking(list.Next(), kept + [todo[0]], todo[1..])
    ensures Walking(list.RemoveAt(|kept|).Next(), kept, todo[1..])
  {
    assert list.items == kept + [todo[0]] + todo[1..];
    assert list.items[|kept|] == todo[0];
    assert list.RemoveAt(|kept|).items == kept + todo[1..];
  }

  lemma ListsIgnoreIndex(s: System, l: KList<int>)
    requires Lists(s) && l.Valid() && l.items == s.wait.items
    ensures Lists(s.(wait := l))
  {
  }

  lemma BlockInRange(s: System, id: int)
    requires Lists(s) && id in s.ready
    ensures 0 <= id < |s.tcbs| && s.tcbs[id].period > 0 && s.tcbs[id].met < BYTE
  {
  }

  lemma DistinctLists(s: System)
    requires Lists(s)
    ensures Distinct(s.ready) && Distinct(s.wait.items)
  {
  }
}
