/** Mutexes with priority inheritance, across queue.c and tasks.c. One action is one critical section, or one stretch with
    the scheduler suspended, of a task inside xQueueSemaphoreTake or xQueueGenericSend. */
module MutexInheritance {
  import opened KernelList

  /** Where a task is: asleep for reasons of its own, running its own code, or in a call that takes mutex m. `inherited`
      is what its call knows of an inheritance it has caused. */
  datatype Pc =
    | Asleep
    | Out
    | Trying(m: nat, timeLeft: bool, inherited: bool)
    | Deciding(m: nat, inherited: bool)
    | Blocked(m: nat, inherited: bool)
    | GivingUp(m: nat, inherited: bool)
    | Disinheriting(m: nat)

  /** `single` is a history: since it last held no mutex, the task has never held two at once. */
  datatype Task = Task(base: nat, priority: nat, held: nat, pc: Pc, single: bool) {
    predicate IsReady() { !pc.Asleep? && !pc.Blocked? }
  }

  const NOBODY: int := -1

  datatype Mutex = Mutex(holder: int, waiters: seq<nat>)

  datatype State = State(tasks: seq<Task>, mutexes: seq<Mutex>)

  datatype Action =
    | Awake(t: nat)
    | Sleep(t: nat)
    | Call(t: nat, mutex: nat, timeLeft: bool)
    | Take(t: nat)
    | Suspend(t: nat, expired: bool)
    | Expire(t: nat)
    | GiveUp(t: nat)
    | Disinherit(t: nat)
    | Give(t: nat, mutex: nat)

  // ----- priorities

  function Goto(s: State, t: nat, pc: Pc): State
    requires t < |s.tasks|
  {
    s.(tasks := s.tasks[t := s.tasks[t].(pc := pc)])
  }

  function SetPriority(s: State, t: nat, priority: nat): State
    requires t < |s.tasks|
  {
    s.(tasks := s.tasks[t := s.tasks[t].(priority := priority)])
  }

  /** xTaskPriorityInherit: the holder comes up to the caller. */
  function Inherit(s: State, holder: nat, t: nat): State
    requires holder < |s.tasks| && t < |s.tasks|
  {
    if s.tasks[holder].priority < s.tasks[t].priority then SetPriority(s, holder, s.tasks[t].priority) else s
  }

  predicate Inherits(s: State, holder: nat, t: nat)
    requires holder < |s.tasks| && t < |s.tasks|
  {
    s.tasks[holder].priority < s.tasks[t].priority || s.tasks[holder].base < s.tasks[t].priority
  }

  /** xTaskPriorityDisinherit: one mutex less; with none left, back to the base priority. */
  function Release(task: Task): Task
    requires task.held > 0
  {
    task.(held := task.held - 1, priority := if task.held == 1 then task.base else task.priority)
  }

  function Max(a: nat, b: nat): nat { if a < b then b else a }

  /** prvGetDisinheritPriorityAfterTimeout */
  function HighestWaiting(s: State, m: nat): nat
    requires m < |s.mutexes|
  {
    var waiters := s.mutexes[m].waiters;
    if waiters != [] && waiters[0] < |s.tasks| then s.tasks[waiters[0]].priority else 0
  }

  /** vTaskPriorityDisinheritAfterTimeout */
  function DisinheritAfterTimeout(s: State, m: nat): State
    requires m < |s.mutexes|
  {
    var h := s.mutexes[m].holder;
    if 0 <= h < |s.tasks| && s.tasks[h].held == 1 then
      SetPriority(s, h, Max(s.tasks[h].base, HighestWaiting(s, m)))
    else s
  }

  // ----- waiting lists

  /** Waiters stand in descending order of priority, behind those of equal priority. */
  function Insert(s: State, waiters: seq<nat>, t: nat): seq<nat>
    requires t < |s.tasks| && forall i :: 0 <= i < |waiters| ==> waiters[i] < |s.tasks|
  {
    if waiters == [] || s.tasks[waiters[0]].priority < s.tasks[t].priority then [t] + waiters
    else [waiters[0]] + Insert(s, waiters[1..], t)
  }

  // ----- actions

  ghost predicate WellFormed(s: State) {
    && (forall t :: 0 <= t < |s.tasks| ==> PcOk(s, s.tasks[t].pc))
    && (forall m :: 0 <= m < |s.mutexes| ==> MutexOk(s, s.mutexes[m]))
  }

  predicate PcOk(s: State, pc: Pc) {
    pc.Asleep? || pc.Out? || pc.m < |s.mutexes|
  }

  ghost predicate MutexOk(s: State, mutex: Mutex) {
    && NOBODY <= mutex.holder < |s.tasks|
    && (forall i :: 0 <= i < |mutex.waiters| ==> mutex.waiters[i] < |s.tasks|)
  }

  /** The scheduler lets a task run only if no ready task has a higher priority. */
  ghost predicate Highest(s: State, t: nat) {
    && t < |s.tasks| && s.tasks[t].IsReady()
    && (forall u :: 0 <= u < |s.tasks| && s.tasks[u].IsReady() ==> s.tasks[u].priority <= s.tasks[t].priority)
  }

  /** What an action needs apart from the processor. A task must not wait for a mutex while it holds one. */
  ghost predicate Possible(s: State, a: Action) {
    && WellFormed(s)
    && a.t < |s.tasks|
    && var task := s.tasks[a.t];
       match a
       case Awake(_) => task.pc.Asleep?
       case Sleep(_) => task.pc.Out?
       case Call(_, m, timeLeft) => task.pc.Out? && m < |s.mutexes| && (timeLeft ==> task.held == 0)
       case Take(_) => task.pc.Trying?
       case Suspend(_, _) => task.pc.Deciding?
       case Expire(_) => task.pc.Blocked?
       case GiveUp(_) => task.pc.GivingUp?
       case Disinherit(_) => task.pc.Disinheriting?
       case Give(_, m) => task.pc.Out? && m < |s.mutexes| && s.mutexes[m].holder == a.t && task.held > 0
  }

  ghost predicate Enabled(s: State, a: Action) {
    Possible(s, a) && (a.Awake? || a.Expire? || Highest(s, a.t))
  }

  function SetWaiters(s: State, m: nat, waiters: seq<nat>): State
    requires m < |s.mutexes|
  {
    s.(mutexes := s.mutexes[m := s.mutexes[m].(waiters := waiters)])
  }

  function SetHolder(s: State, m: nat, holder: int): State
    requires m < |s.mutexes|
  {
    s.(mutexes := s.mutexes[m := s.mutexes[m].(holder := holder)])
  }

  /** xTaskRemoveFromEventList: the first waiter tries again. */
  function WakeFirst(s: State, m: nat): State
    requires WellFormed(s) && m < |s.mutexes|
  {
    var waiters := s.mutexes[m].waiters;
    if waiters == [] then s
    else
      var w := waiters[0];
      SetWaiters(Goto(s, w, Trying(m, true, s.tasks[w].pc.Blocked? && s.tasks[w].pc.inherited)), m, waiters[1..])
  }

  function Grant(s: State, t: nat, m: nat): State
    requires t < |s.tasks| && m < |s.mutexes|
  {
    var task := s.tasks[t];
    SetHolder(s.(tasks := s.tasks[t := task.(held := task.held + 1, pc := Out, single := task.held == 0)]), m, t)
  }

  function Freed(s: State, t: nat, m: nat): State
    requires t < |s.tasks| && m < |s.mutexes| && s.tasks[t].held > 0
  {
    SetHolder(s.(tasks := s.tasks[t := Release(s.tasks[t])]), m, NOBODY)
  }

  function Wait(s: State, t: nat, m: nat): State
    requires WellFormed(s) && t < |s.tasks| && m < |s.mutexes| && s.mutexes[m].holder >= 0
  {
    var h := s.mutexes[m].holder;
    var raised := Inherit(s, h, t);
    SetWaiters(Goto(raised, t, Blocked(m, Inherits(s, h, t))), m, Insert(raised, s.mutexes[m].waiters, t))
  }

  function Apply(s: State, a: Action): State
    requires Possible(s, a)
  {
    match a
    case Awake(t) => Goto(s, t, Out)
    case Sleep(t) => Goto(s, t, Asleep)
    case Call(t, m, timeLeft) => Goto(s, t, Trying(m, timeLeft, false))
    case Take(t) =>
      var Trying(m, timeLeft, inherited) := s.tasks[t].pc;
      if s.mutexes[m].holder == NOBODY then Grant(s, t, m)
      else Goto(s, t, if timeLeft then Deciding(m, inherited) else Out)
    case Suspend(t, expired) =>
      var Deciding(m, inherited) := s.tasks[t].pc;
      if expired then Goto(s, t, GivingUp(m, inherited))
      else if s.mutexes[m].holder == NOBODY then Goto(s, t, Trying(m, true, inherited))
      else Wait(s, t, m)
    case Expire(t) =>
      var Blocked(m, inherited) := s.tasks[t].pc;
      SetWaiters(Goto(s, t, Trying(m, true, inherited)), m, RemoveFirst(s.mutexes[m].waiters, t))
    case GiveUp(t) =>
      var GivingUp(m, inherited) := s.tasks[t].pc;
      Goto(s, t, if s.mutexes[m].holder == NOBODY then Trying(m, false, inherited)
                 else if inherited then Disinheriting(m) else Out)
    case Disinherit(t) => DisinheritAfterTimeout(Goto(s, t, Out), s.tasks[t].pc.m)
    case Give(t, m) => WakeFirst(Freed(s, t, m), m)
  }
}
