/** When giving a mutex asks for a switch of tasks, and when it fails to. */
module MutexYield {
  import opened MutexInheritance
  import opened MutexSafety

  /** What the give branch of xQueueGenericSend requests: a switch if the task it wakes is more urgent than the giver now
      is, or, with no task to wake, if the giver has come down. */
  predicate YieldRequested(s: State, t: nat, m: nat)
    requires t < |s.tasks| && m < |s.mutexes| && s.tasks[t].held > 0
    requires forall i :: 0 <= i < |s.mutexes[m].waiters| ==> s.mutexes[m].waiters[i] < |s.tasks|
  {
    var task, waiters := s.tasks[t], s.mutexes[m].waiters;
    if waiters != [] then s.tasks[waiters[0]].priority > Release(task).priority
    else task.held == 1 && task.priority != task.base
  }

  /** Some other ready task is more urgent than t. */
  ghost predicate Overtaken(s: State, t: nat)
    requires t < |s.tasks|
  {
    exists u :: 0 <= u < |s.tasks| && s.tasks[u].IsReady() && s.tasks[u].priority > s.tasks[t].priority
  }

  /** The give makes the giver come down and wakes a task no more urgent than the giver then is, while a third task that
      is more urgent is ready already. */
  ghost predicate MissesSwitch(s: State, t: nat, m: nat)
    requires WellFormed(s) && t < |s.tasks| && m < |s.mutexes|
  {
    && s.tasks[t].held == 1 && s.mutexes[m].waiters != []
    && s.tasks[s.mutexes[m].waiters[0]].priority <= s.tasks[t].base
    && exists u :: 0 <= u < |s.tasks| && u != t && s.tasks[u].IsReady() && s.tasks[u].priority > s.tasks[t].base
  }

  /** A give leaves the processor with too low a task, and asks for no switch, exactly under that condition. */
  lemma MissedYield(s: State, t: nat, m: nat)
    requires Inv(s) && Enabled(s, Give(t, m))
    ensures Overtaken(Apply(s, Give(t, m)), t) && !YieldRequested(s, t, m)
            <==> MissesSwitch(s, t, m)
  {
    hide HeldBy, UrgencyOk;
    var s', waiters := Apply(s, Give(t, m)), s.mutexes[m].waiters;
    assert WaitersOk(s, m) && TaskOk(s, t);
    forall u | 0 <= u < |s.tasks| && u != t
      ensures s'.tasks[u].priority == s.tasks[u].priority
      ensures s'.tasks[u].IsReady() <==> s.tasks[u].IsReady() || (waiters != [] && u == waiters[0])
    {
    }
    assert s'.tasks[t].priority == Release(s.tasks[t]).priority;
    if waiters != [] {
      assert waiters[0] in waiters;
    }
  }
}
