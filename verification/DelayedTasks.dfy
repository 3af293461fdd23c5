/** Delayed tasks and the tick counter of tasks.c. The counter wraps at M, tasks are kept on two lists that are swapped at
    the wrap, and a cached unblock time guards the search. All of it is proved against an unbounded clock and the set of
    sleeping tasks, each with the instant at which it wakes. */
module DelayedTasks {
  import opened KernelList
  import opened Arithmetic

  /** A state list item on a delayed list. */
  datatype Item = Item(task: nat, value: nat)

  /** A task and the instant, on the unbounded clock, at which it is to wake. */
  datatype Sleeper = Sleeper(task: nat, wake: nat)

  function Values(items: seq<Item>): (v: seq<nat>)
    ensures |v| == |items| && forall k :: 0 <= k < |items| ==> v[k] == items[k].value
  {
    seq(|items|, k requires 0 <= k < |items| => items[k].value)
  }

  ghost function Sleeping(items: seq<Item>, base: nat): (s: set<Sleeper>)
    ensures forall x: Sleeper :: x in s <==> x.wake >= base && Item(x.task, x.wake - base) in items
  {
    set e <- items :: Sleeper(e.task, base + e.value)
  }

  function Inserted(items: seq<Item>, x: Item): seq<Item> {
    var p := InsertPosition(Values(items), x.value);
    items[..p] + [x] + items[p..]
  }

  function RemovedAt(items: seq<Item>, p: nat): seq<Item>
    requires p < |items|
  {
    items[..p] + items[p + 1..]
  }

  lemma InsertItem(items: seq<Item>, x: Item)
    requires Sorted(Values(items)) && Distinct(items) && x !in items
    ensures var r := Inserted(items, x);
            && Sorted(Values(r)) && Distinct(r)
            && (forall e :: e in r <==> e in items || e == x)
  {
    hide InsertPosition;
    var p := InsertPosition(Values(items), x.value);
    InsertKeepsSortedAndStable(Values(items), x.value);
    assert Values(Inserted(items, x)) == Values(items)[..p] + [x.value] + Values(items)[p..];
    assert items == items[..p] + items[p..];
  }

  lemma RemoveItem(items: seq<Item>, p: nat)
    requires Sorted(Values(items)) && Distinct(items) && p < |items|
    ensures var r := RemovedAt(items, p);
            && Sorted(Values(r)) && Distinct(r)
            && (forall e :: e in r <==> e in items && e != items[p])
  {
    var r := RemovedAt(items, p);
    forall i, j | 0 <= i < j < |r|
      ensures Values(r)[i] <= Values(r)[j]
    {
      assert Values(items)[if i < p then i else i + 1] <= Values(items)[if j < p then j else j + 1];
    }
    assert items == items[..p] + [items[p]] + items[p + 1..];
  }

  /** Addition in the tick type. */
  function TickSum(a: nat, b: nat, M: nat): (r: nat)
    requires a < M && b < M
    ensures r < M && r == if a + b < M then a + b else a + b - M
  {
    DivModUnique(a + b, M, if a + b < M then 0 else 1, if a + b < M then a + b else a + b - M);
    (a + b) % M
  }

  class Delays {
    /** The tick type holds the numbers below M; M - 1 is portMAX_DELAY. */
    const M: nat
    var tickCount: nat
    var numOfOverflows: nat
    var nextTaskUnblockTime: nat
    var delayed: seq<Item>
    var overflow: seq<Item>
    var suspendedTasks: seq<nat>
    /** uxSchedulerSuspended, and the ticks counted since */
    var schedulerSuspended: nat
    var pendedTicks: nat

    /** The unbounded tick count at the last wrap. */
    ghost var base: nat

    ghost predicate Valid()
      reads this`tickCount, this`numOfOverflows, this`nextTaskUnblockTime, this`base, this`delayed, this`overflow
    {
      Ticking() && forall e <- delayed :: e.value != tickCount
    }

    /** `Valid` except that tasks whose instant is the present tick may still be on the delayed list. */
    ghost predicate Ticking()
      reads this`tickCount, this`numOfOverflows, this`nextTaskUnblockTime, this`base, this`delayed, this`overflow
    {
      && M > 1 && tickCount < M && nextTaskUnblockTime < M
      && base == numOfOverflows * M
      && Sorted(Values(delayed)) && Distinct(delayed)
      && Sorted(Values(overflow)) && Distinct(overflow)
      && (forall e <- delayed :: tickCount <= e.value < M && nextTaskUnblockTime <= e.value)
      && (forall e <- overflow :: e.value < tickCount)
    }

    /** The unbounded tick count. */
    ghost function Clock(): nat
      reads this`base, this`tickCount
    {
      base + tickCount
    }

    /** The number of tick interrupts so far, counting those still to be made up for. */
    ghost function Now(): nat
      reads this`base, this`tickCount, this`pendedTicks
    {
      Clock() + pendedTicks
    }

    ghost function Sleepers(): set<Sleeper>
      reads this`base, this`delayed, this`overflow
    {
      Sleeping(delayed, base) + Sleeping(overflow, base + M)
    }

    constructor (M: nat)
      requires M > 1
      ensures Valid() && this.M == M && Clock() == 0 && Sleepers() == {} && suspendedTasks == []
    {
      this.M := M;
      tickCount, numOfOverflows, nextTaskUnblockTime := 0, 0, M - 1;
      delayed, overflow, suspendedTasks := [], [], [];
      schedulerSuspended, pendedTicks := 0, 0;
      base := 0;
    }

    /** prvAddCurrentTaskToDelayedList. A task waits for at least one tick; it waits for ever if it asks for the largest
        number of ticks and may. */
    method AddCurrentTaskToDelayedList(task: nat, ticksToWait: nat, canBlockIndefinitely: bool)
      requires Valid() && 1 <= ticksToWait < M && (forall s <- Sleepers() :: s.task != task)
      modifies this
      ensures Valid() && Clock() == old(Clock())
      ensures if ticksToWait == M - 1 && canBlockIndefinitely
              then Sleepers() == old(Sleepers()) && suspendedTasks == old(suspendedTasks) + [task]
              else suspendedTasks == old(suspendedTasks) &&
                   forall s :: s in Sleepers() <==> s in old(Sleepers()) || s == Sleeper(task, Clock() + ticksToWait)
    {
      hide Sleeping, Sorted, Distinct;
      if ticksToWait == M - 1 && canBlockIndefinitely {
        suspendedTasks := suspendedTasks + [task];
      } else {
        AddUntil(task, TickSum(tickCount, ticksToWait, M));
      }
    }

    /** The branch of prvAddCurrentTaskToDelayedList for a task with a wake time */
    method AddUntil(task: nat, timeToWake: nat)
      requires Valid() && timeToWake < M && timeToWake != tickCount && (forall s <- Sleepers() :: s.task != task)
      modifies this`delayed, this`overflow, this`nextTaskUnblockTime
      ensures Valid()
      ensures var wake := base + timeToWake + if timeToWake < tickCount then M else 0;
              forall s :: s in Sleepers() <==> s in old(Sleepers()) || s == Sleeper(task, wake)
    {
      hide Sleeping, Sorted, Distinct;
      var x := Item(task, timeToWake);
      if timeToWake < tickCount {
        assert Sleeper(task, base + M + timeToWake) !in Sleepers();
        InsertOverflow(x);
      } else {
        assert Sleeper(task, base + timeToWake) !in Sleepers();
        InsertDelayed(x);
      }
    }

    /** vListInsert on the list of the next turn */
    method InsertOverflow(x: Item)
      requires Valid() && x !in overflow && x.value < tickCount
      modifies this`overflow
      ensures Valid()
      ensures forall s :: s in Sleepers() <==> s in old(Sleepers()) || s == Sleeper(x.task, base + M + x.value)
    {
      hide Sleeping, Inserted, Values, Sorted, Distinct;
      InsertItem(overflow, x);
      overflow := Inserted(overflow, x);
    }

    /** vListInsert on the list of the present turn, with the cached time brought down if need be */
    method InsertDelayed(x: Item)
      requires Valid() && x !in delayed && tickCount < x.value < M
      modifies this`delayed, this`nextTaskUnblockTime
      ensures Valid()
      ensures forall s :: s in Sleepers() <==> s in old(Sleepers()) || s == Sleeper(x.task, base + x.value)
    {
      hide Sleeping, Inserted, Values, Sorted, Distinct;
      InsertItem(delayed, x);
      delayed := Inserted(delayed, x);
      if x.value < nextTaskUnblockTime {
        nextTaskUnblockTime := x.value;
      }
    }

    /** uxListRemove of a sleeping task that an event wakes early, by its item. The cached time is left as it is. */
    method RemoveSleeper(inOverflow: bool, p: nat)
      requires Valid() && p < if inOverflow then |overflow| else |delayed|
      modifies this`delayed, this`overflow
      ensures Valid() && Clock() == old(Clock())
      ensures var removed := if inOverflow then Sleeper(old(overflow)[p].task, base + M + old(overflow)[p].value)
                             else Sleeper(old(delayed)[p].task, base + old(delayed)[p].value);
              forall s :: s in Sleepers() <==> s in old(Sleepers()) && s != removed
    {
      hide Sleeping, RemovedAt, Values, Sorted, Distinct;
      if inOverflow {
        RemoveItem(overflow, p);
        overflow := RemovedAt(overflow, p);
      } else {
        RemoveItem(delayed, p);
        delayed := RemovedAt(delayed, p);
      }
    }

    /** prvResetNextTaskUnblockTime */
    method ResetNextTaskUnblockTime()
      requires M > 1 && Sorted(Values(delayed)) && forall e <- delayed :: e.value < M
      modifies this`nextTaskUnblockTime
      ensures nextTaskUnblockTime < M
      ensures forall e <- delayed :: nextTaskUnblockTime <= e.value
      ensures nextTaskUnblockTime == if delayed == [] then M - 1 else delayed[0].value
    {
      if delayed == [] {
        nextTaskUnblockTime := M - 1;
      } else {
        nextTaskUnblockTime := delayed[0].value;
        assert forall k :: 0 <= k < |delayed| ==> Values(delayed)[0] <= Values(delayed)[k];
      }
    }

    /** taskSWITCH_DELAYED_LISTS. No task is left on the list whose turn ends. */
    method SwitchDelayedLists()
      requires M > 1 && tickCount == 0 && base == numOfOverflows * M
      requires Sorted(Values(overflow)) && Distinct(overflow) && (forall e <- overflow :: e.value < M)
      requires delayed == []
      modifies this`delayed, this`overflow, this`numOfOverflows, this`base, this`nextTaskUnblockTime
      ensures Ticking() && base == old(base) + M && delayed == old(overflow) && overflow == []
    {
      delayed, overflow := overflow, delayed;
      numOfOverflows := numOfOverflows + 1;
      base := base + M;
      ResetNextTaskUnblockTime();
    }

    /** The increment of the counter, with the switch of the lists when it wraps */
    method AdvanceTick()
      requires Valid()
      modifies this`tickCount, this`delayed, this`overflow, this`numOfOverflows, this`base, this`nextTaskUnblockTime
      ensures Ticking() && Clock() == old(Clock()) + 1
      ensures forall s :: s in Sleepers() <==> s in old(Sleepers())
    {
      hide Sleeping, Values, TickSum;
      assert delayed == [] || delayed[0] in delayed;
      tickCount := TickSum(tickCount, 1, M);
      if tickCount == 0 {
        SwitchDelayedLists();
      }
    }

    /** The loop of xTaskIncrementTick that takes due tasks off the delayed list. */
    method UnblockDueTasks() returns (readied: seq<nat>)
      requires Ticking()
      modifies this`delayed, this`nextTaskUnblockTime
      ensures Valid() && Distinct(readied)
      ensures forall e :: e in delayed <==> e in old(delayed) && e.value != tickCount
      ensures forall t :: t in readied <==> Item(t, tickCount) in old(delayed)
    {
      readied := [];
      while true
        invariant Sorted(Values(delayed)) && Distinct(delayed) && Distinct(readied)
        invariant forall e <- delayed :: tickCount <= e.value < M
        invariant forall e :: e in old(delayed) <==> e in delayed || (e.value == tickCount && e.task in readied)
        invariant forall t <- readied :: Item(t, tickCount) !in delayed
        decreases |delayed|
      {
        if delayed == [] {
          nextTaskUnblockTime := M - 1;
          return;
        }
        var head := delayed[0];
        if tickCount < head.value {
          nextTaskUnblockTime := head.value;
          assert forall k :: 0 <= k < |delayed| ==> Values(delayed)[0] <= Values(delayed)[k];
          return;
        }
        RemoveItem(delayed, 0);
        delayed := RemovedAt(delayed, 0);
        readied := readied + [head.task];
      }
    }

    /** The part of xTaskIncrementTick that wakes delayed tasks: exactly those wake whose instant is the new clock. */
    method IncrementTick() returns (readied: seq<nat>)
      requires Valid()
      modifies this
      ensures Valid() && Clock() == old(Clock()) + 1 && Distinct(readied)
      ensures unchanged(`suspendedTasks) && unchanged(`schedulerSuspended) && unchanged(`pendedTicks)
      ensures forall t :: t in readied <==> Sleeper(t, Clock()) in old(Sleepers())
      ensures forall s :: s in Sleepers() <==> s in old(Sleepers()) && s.wake != Clock()
    {
      hide Sleeping, Values;
      readied := [];
      AdvanceTick();
      if tickCount >= nextTaskUnblockTime {
        readied := UnblockDueTasks();
      }
    }

    /** A stretch of n ticks. A task that sleeps until instant w is readied by the tick that brings the clock to w, by that
        tick only, and whatever wraps of the counter lie between. */
    method Elapse(n: nat) returns (log: seq<seq<nat>>)
      requires Valid()
      modifies this
      ensures Valid() && Clock() == old(Clock()) + n && |log| == n
      ensures forall k: nat, t {:trigger t in log[k]} :: 0 <= k < n ==>
                (t in log[k] <==> Sleeper(t, old(Clock()) + k + 1) in old(Sleepers()))
      ensures forall s :: s in Sleepers() <==> s in old(Sleepers()) && s.wake > Clock()
    {
      hide Sleeping, Valid;
      AwakeIsGone();
      log := [];
      for i := 0 to n
        invariant Valid() && Clock() == old(Clock()) + i && |log| == i
        invariant forall k: nat, t {:trigger t in log[k]} :: 0 <= k < i ==>
                    (t in log[k] <==> Sleeper(t, old(Clock()) + k + 1) in old(Sleepers()))
        invariant forall s :: s in Sleepers() <==> s in old(Sleepers()) && s.wake > Clock()
      {
        var readied := IncrementTick();
        log := log + [readied];
      }
    }

    /** Only tasks whose instant is to come are on the lists. */
    lemma AwakeIsGone()
      requires Valid()
      ensures forall s <- Sleepers() :: s.wake > Clock()
    {
      hide Sleeping;
    }

    /** The tick interrupt, which only counts while the scheduler is suspended */
    method TickInterrupt() returns (readied: seq<nat>)
      requires Valid()
      modifies this
      ensures Valid() && Now() == old(Now()) + 1 && schedulerSuspended == old(schedulerSuspended)
      ensures schedulerSuspended > 0 ==> readied == [] && Clock() == old(Clock()) && Sleepers() == old(Sleepers())
      ensures schedulerSuspended == 0 ==>
                && pendedTicks == old(pendedTicks)
                && (forall t :: t in readied <==> Sleeper(t, Clock()) in old(Sleepers()))
                && (forall s :: s in Sleepers() <==> s in old(Sleepers()) && s.wake != Clock())
    {
      hide Sleeping, Valid;
      if schedulerSuspended == 0 {
        readied := IncrementTick();
      } else {
        readied := [];
        pendedTicks := pendedTicks + 1;
      }
    }

    /** The part of xTaskResumeAll that makes up for the ticks that arrived while the scheduler was suspended: when the
        last suspension ends, the clock has caught up, and exactly the tasks whose instant has passed are readied. */
    method ResumeAll() returns (readied: seq<nat>)
      requires Valid() && schedulerSuspended > 0
      modifies this
      ensures Valid() && Now() == old(Now()) && schedulerSuspended == old(schedulerSuspended) - 1
      ensures schedulerSuspended == 0 ==> pendedTicks == 0
      ensures schedulerSuspended == 0 ==>
                && (forall t :: t in readied <==> exists w: nat :: w <= Now() && Sleeper(t, w) in old(Sleepers()))
                && (forall s :: s in Sleepers() <==> s in old(Sleepers()) && s.wake > Now())
    {
      hide Sleeping, Valid;
      AwakeIsGone();
      readied := [];
      schedulerSuspended := schedulerSuspended - 1;
      if schedulerSuspended == 0 {
        var pendedCounts := pendedTicks;
        while pendedCounts > 0
          invariant Valid() && Clock() + pendedCounts == old(Now()) && schedulerSuspended == 0
          invariant forall t :: t in readied <==> exists w: nat :: w <= Clock() && Sleeper(t, w) in old(Sleepers())
          invariant forall s :: s in Sleepers() <==> s in old(Sleepers()) && s.wake > Clock()
        {
          var more := IncrementTick();
          readied := readied + more;
          pendedCounts := pendedCounts - 1;
        }
        pendedTicks := 0;
      }
    }
  }
}
