/** The task control blocks and mutexes as they are updated in place. Each method is one action of `MutexInheritance` and
    is proved to compute it; which ready list a task stands in follows from its priority and is not kept here. */
module MutexControl {
  import opened MutexInheritance
  import opened MutexSafety
  import opened MutexYield

  class Kernel {
    var tasks: seq<Task>
    var mutexes: seq<Mutex>

    ghost function View(): State
      reads this
    {
      State(tasks, mutexes)
    }

    /** Tasks of the given priorities and n new mutexes */
    constructor (priorities: seq<nat>, n: nat)
      ensures Initial(View()) && Inv(View())
      ensures |tasks| == |priorities| && |mutexes| == n
    {
      tasks := seq(|priorities|, i requires 0 <= i < |priorities| => Task(priorities[i], priorities[i], 0, Asleep, true));
      mutexes := seq(n, _ => Mutex(NOBODY, []));
      new;
      InitialInv(View());
    }

    /** xTaskPriorityInherit; `current` is the running task */
    method PriorityInherit(holder: nat, current: nat) returns (inherited: bool)
      requires holder < |tasks| && current < |tasks|
      modifies this`tasks
      ensures View() == Inherit(old(View()), holder, current)
      ensures inherited == Inherits(old(View()), holder, current)
    {
      inherited := false;
      if tasks[holder].priority < tasks[current].priority {
        tasks := tasks[holder := tasks[holder].(priority := tasks[current].priority)];
        inherited := true;
      } else if tasks[holder].base < tasks[current].priority {
        inherited := true;
      }
    }

    /** xTaskPriorityDisinherit */
    method PriorityDisinherit(t: nat) returns (yieldRequired: bool)
      requires t < |tasks| && tasks[t].held > 0
      modifies this`tasks
      ensures tasks == old(tasks)[t := Release(old(tasks)[t])]
      ensures yieldRequired <==> old(tasks)[t].held == 1 && old(tasks)[t].priority != old(tasks)[t].base
    {
      yieldRequired := false;
      tasks := tasks[t := tasks[t].(held := tasks[t].held - 1)];
      if tasks[t].priority != tasks[t].base {
        if tasks[t].held == 0 {
          tasks := tasks[t := tasks[t].(priority := tasks[t].base)];
          yieldRequired := true;
        }
      }
    }

    /** prvGetDisinheritPriorityAfterTimeout */
    method GetDisinheritPriorityAfterTimeout(m: nat) returns (priority: nat)
      requires WellFormed(View()) && m < |mutexes|
      ensures priority == HighestWaiting(View(), m)
      ensures Inv(View()) ==> forall w :: w in mutexes[m].waiters ==> tasks[w].priority <= priority
    {
      assert Inv(View()) ==> WaitersOk(View(), m);
      if |mutexes[m].waiters| > 0 {
        priority := tasks[mutexes[m].waiters[0]].priority;
      } else {
        priority := 0;
      }
    }

    /** vTaskPriorityDisinheritAfterTimeout */
    method PriorityDisinheritAfterTimeout(holder: int, highestWaiting: nat)
      requires NOBODY <= holder < |tasks|
      modifies this`tasks
      ensures holder == NOBODY || old(tasks)[holder].held != 1 ==> tasks == old(tasks)
      ensures holder != NOBODY && old(tasks)[holder].held == 1 ==>
                var task := old(tasks)[holder];
                tasks == old(tasks)[holder := task.(priority := Max(task.base, highestWaiting))]
    {
      if holder != NOBODY {
        var priorityToUse := if tasks[holder].base < highestWaiting then highestWaiting else tasks[holder].base;
        if tasks[holder].priority != priorityToUse {
          if tasks[holder].held == 1 {
            tasks := tasks[holder := tasks[holder].(priority := priorityToUse)];
          }
        }
      }
    }

    /** The first critical section of xQueueSemaphoreTake */
    method TryToTake(t: nat) returns (taken: bool)
      requires Inv(View()) && Enabled(View(), Take(t))
      modifies this
      ensures Inv(View()) && View() == Apply(old(View()), Take(t))
      ensures taken <==> old(mutexes[tasks[t].pc.m].holder) == NOBODY
      ensures var task, m := old(tasks)[t], old(tasks)[t].pc.m;
              if taken then
                && mutexes == old(mutexes)[m := old(mutexes)[m].(holder := t)]
                && tasks[t].held == task.held + 1 && tasks[t].priority == task.priority && tasks[t].pc == Out
              else
                && mutexes == old(mutexes)
                && tasks[t] == task.(pc := if task.pc.timeLeft then Deciding(m, task.pc.inherited) else Out)
      ensures |tasks| == |old(tasks)| && forall u :: 0 <= u < |tasks| && u != t ==> tasks[u] == old(tasks)[u]
    {
      ActionKeepsInv(View(), Take(t));
      hide TaskOk, WaitersOk, UrgencyOk;
      var Trying(m, timeLeft, inherited) := tasks[t].pc;
      taken := mutexes[m].holder == NOBODY;
      if taken {
        tasks := tasks[t := tasks[t].(held := tasks[t].held + 1, pc := Out, single := tasks[t].held == 0)];
        mutexes := mutexes[m := mutexes[m].(holder := t)];
      } else {
        tasks := tasks[t := tasks[t].(pc := if timeLeft then Deciding(m, inherited) else Out)];
      }
    }

    /** vTaskPlaceOnEventList, by vListInsert in order of priority */
    method PlaceOnEventList(m: nat, t: nat)
      requires WellFormed(View()) && m < |mutexes| && t < |tasks|
      modifies this`mutexes
      ensures View() == SetWaiters(old(View()), m, Insert(old(View()), old(mutexes[m].waiters), t))
      ensures var waiters := old(mutexes)[m].waiters;
              exists at :: 0 <= at <= |waiters| && mutexes[m].waiters == waiters[..at] + [t] + waiters[at..]
                           && (forall i :: 0 <= i < at ==> tasks[waiters[i]].priority >= tasks[t].priority)
                           && (at < |waiters| ==> tasks[waiters[at]].priority < tasks[t].priority)
    {
      var waiters, at := mutexes[m].waiters, 0;
      while at < |waiters| && tasks[waiters[at]].priority >= tasks[t].priority
        invariant 0 <= at <= |waiters|
        invariant forall i :: 0 <= i < at ==> tasks[waiters[i]].priority >= tasks[t].priority
      {
        at := at + 1;
      }
      InsertPlace(View(), waiters, at, t);
      mutexes := mutexes[m := mutexes[m].(waiters := waiters[..at] + [t] + waiters[at..])];
    }

    /** What xQueueSemaphoreTake does with the scheduler suspended, when its time has not run out */
    method WaitUnlessFree(t: nat) returns (blocked: bool)
      requires Inv(View()) && Enabled(View(), Suspend(t, false))
      modifies this
      ensures Inv(View()) && View() == Apply(old(View()), Suspend(t, false))
      ensures blocked <==> old(mutexes[tasks[t].pc.m].holder) != NOBODY
      ensures var m := old(tasks)[t].pc.m;
              if blocked then
                var h := mutexes[m].holder;
                && mutexes[m].holder == old(mutexes)[m].holder && 0 <= h < |tasks| == |old(tasks)|
                && tasks[t].pc.Blocked? && tasks[t].pc.m == m && t in mutexes[m].waiters
                && tasks[h].priority == Max(old(tasks)[h].priority, tasks[t].priority)
              else
                mutexes == old(mutexes) && tasks[t].pc.Trying? && tasks[t].pc.m == m && tasks[t].pc.timeLeft
    {
      ActionKeepsInv(View(), Suspend(t, false));
      hide TaskOk, WaitersOk, UrgencyOk, Insert;
      var Deciding(m, inherited) := tasks[t].pc;
      blocked := mutexes[m].holder != NOBODY;
      if blocked {
        var caused := PriorityInherit(mutexes[m].holder, t);
        PlaceOnEventList(m, t);
        tasks := tasks[t := tasks[t].(pc := Blocked(m, caused))];
      } else {
        tasks := tasks[t := tasks[t].(pc := Trying(m, true, inherited))];
      }
    }

    /** What a take does once its time has run out: it tries again if the mutex is free after all */
    method GiveUpUnlessFree(t: nat) returns (again: bool)
      requires Inv(View()) && Enabled(View(), GiveUp(t))
      modifies this`tasks
      ensures Inv(View()) && View() == Apply(old(View()), GiveUp(t))
      ensures again <==> mutexes[old(tasks)[t].pc.m].holder == NOBODY
      ensures var pc := old(tasks)[t].pc;
              tasks[t].pc == if again then Trying(pc.m, false, pc.inherited)
                             else if pc.inherited then Disinheriting(pc.m) else Out
    {
      ActionKeepsInv(View(), GiveUp(t));
      hide TaskOk, WaitersOk, UrgencyOk;
      var GivingUp(m, inherited) := tasks[t].pc;
      again := mutexes[m].holder == NOBODY;
      tasks := tasks[t := tasks[t].(pc := if again then Trying(m, false, inherited)
                                          else if inherited then Disinheriting(m) else Out)];
    }

    /** The last critical section of a take that has timed out */
    method DisinheritTimedOut(t: nat)
      requires Inv(View()) && Enabled(View(), Disinherit(t))
      modifies this
      ensures Inv(View()) && View() == Apply(old(View()), Disinherit(t))
      ensures tasks[t].pc == Out && mutexes == old(mutexes) && |tasks| == |old(tasks)|
      ensures var m := old(tasks)[t].pc.m;
              m < |mutexes| && ComesDown(View(), old(tasks), mutexes[m].holder, mutexes[m].waiters)
    {
      ActionKeepsInv(View(), Disinherit(t));
      ComesDownExactly(View(), t);
      hide ComesDown;
      hide TaskOk, WaitersOk, UrgencyOk;
      var m := tasks[t].pc.m;
      tasks := tasks[t := tasks[t].(pc := Out)];
      var highest := GetDisinheritPriorityAfterTimeout(m);
      PriorityDisinheritAfterTimeout(mutexes[m].holder, highest);
    }

    /** The critical section of xQueueGenericSend when a mutex is given */
    method GiveMutex(t: nat, m: nat) returns (switching: bool)
      requires Inv(View()) && Enabled(View(), Give(t, m))
      modifies this
      ensures Inv(View()) && View() == Apply(old(View()), Give(t, m))
      ensures switching == old(YieldRequested(View(), t, m))
      ensures mutexes[m].holder == NOBODY && tasks[t].held == old(tasks)[t].held - 1
      ensures tasks[t].priority == if tasks[t].held == 0 then tasks[t].base else old(tasks)[t].priority
      ensures var waiters := old(mutexes)[m].waiters;
              if waiters == [] then mutexes[m].waiters == []
              else mutexes[m].waiters == waiters[1..] && waiters[0] < |tasks| && tasks[waiters[0]].IsReady()
    {
      ActionKeepsInv(View(), Give(t, m));
      assert WaitersOk(View(), m);
      hide TaskOk, UrgencyOk;
      switching := PriorityDisinherit(t);
      mutexes := mutexes[m := mutexes[m].(holder := NOBODY)];
      var waiters := mutexes[m].waiters;
      if waiters != [] {
        var w := waiters[0];
        assert w in waiters;
        mutexes := mutexes[m := mutexes[m].(waiters := waiters[1..])];
        tasks := tasks[w := tasks[w].(pc := Trying(m, true, tasks[w].pc.inherited))];
        switching := tasks[w].priority > tasks[t].priority;
      }
    }
  }

  /** A holder of one mutex is as high as its base or the most urgent waiter, whichever is higher; any other is as before. */
  ghost predicate ComesDown(s: State, before: seq<Task>, h: int, waiters: seq<nat>) {
    0 <= h < |s.tasks| == |before| ==>
      if before[h].held == 1 then
        && (forall w :: w in waiters ==> w < |s.tasks| && s.tasks[w].priority <= s.tasks[h].priority)
        && s.tasks[h].priority >= s.tasks[h].base
        && (s.tasks[h].priority == s.tasks[h].base
            || exists w :: w in waiters && w < |s.tasks| && s.tasks[w].priority == s.tasks[h].priority)
      else s.tasks[h] == before[h]
  }

  lemma ComesDownExactly(s: State, t: nat)
    requires Inv(s) && Enabled(s, Disinherit(t))
    ensures var m := s.tasks[t].pc.m;
            ComesDown(Apply(s, Disinherit(t)), s.tasks, s.mutexes[m].holder, s.mutexes[m].waiters)
  {
    var m := s.tasks[t].pc.m;
    var h := s.mutexes[m].holder;
    if h != NOBODY {
      ActionKeepsInv(s, Disinherit(t));
      HolderAbove(Apply(s, Disinherit(t)), m);
      HolderApart(s, t, m);
      hide Inv, Highest;
      if s.mutexes[m].waiters != [] {
        assert s.mutexes[m].waiters[0] in s.mutexes[m].waiters;
      }
    }
  }

  lemma HolderAbove(s: State, m: nat)
    requires Inv(s) && m < |s.mutexes| && s.mutexes[m].holder != NOBODY
    ensures var h := s.mutexes[m].holder;
            && s.tasks[h].base <= s.tasks[h].priority
            && forall w :: w in s.mutexes[m].waiters ==> w < |s.tasks| && s.tasks[w].priority <= s.tasks[h].priority
  {
    assert UrgencyOk(s, m) && TaskOk(s, s.mutexes[m].holder);
    hide HeldBy;
    forall w | w in s.mutexes[m].waiters
      ensures w < |s.tasks| && s.tasks[w].priority <= s.tasks[s.mutexes[m].holder].priority
    {
      var i :| 0 <= i < |s.mutexes[m].waiters| && s.mutexes[m].waiters[i] == w;
    }
  }

  lemma HolderApart(s: State, t: nat, m: nat)
    requires Inv(s) && Enabled(s, Disinherit(t)) && m < |s.mutexes| && s.mutexes[m].holder != NOBODY
    ensures s.mutexes[m].holder != t && s.mutexes[m].holder !in s.mutexes[m].waiters
  {
    HolderIsNotWaiting(s, m);
    assert TaskOk(s, t) && WaitersOk(s, m);
  }

  lemma {:induction false} InsertPlace(s: State, waiters: seq<nat>, at: nat, t: nat)
    requires t < |s.tasks| && at <= |waiters| && forall i :: 0 <= i < |waiters| ==> waiters[i] < |s.tasks|
    requires forall i :: 0 <= i < at ==> s.tasks[waiters[i]].priority >= s.tasks[t].priority
    requires at < |waiters| ==> s.tasks[waiters[at]].priority < s.tasks[t].priority
    ensures Insert(s, waiters, t) == waiters[..at] + [t] + waiters[at..]
    decreases at
  {
    if at > 0 {
      InsertPlace(s, waiters[1..], at - 1, t);
      assert waiters[..at] == [waiters[0]] + waiters[1..][..at - 1];
      assert waiters[1..][at - 1..] == waiters[at..];
    }
  }
}
