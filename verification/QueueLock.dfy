/** Blocking on a queue: tasks and interrupts interleave, and while the queue is locked lock counters stand for postponed
    wake-ups. One action is one critical section of queue.c, or one step taken with the scheduler suspended. */
module QueueLock {
  import opened KernelList

  datatype Op = Receive | Peek | Send | Overwrite {
    predicate Sends() {
      Send? || Overwrite?
    }
  }

  /** What a task does once it has unlocked the queue and resumed the scheduler: wait for the event it has been listed for
      (unless it has been woken in the meantime), try again, or end its wait. */
  datatype Next = Wait(woken: bool) | Retry | Quit

  /** The steps with the scheduler suspended. */
  datatype Phase = ToLock | ToCheckTime | ToCheckQueue | ToPlace | ToUnlockTx(next: Next) | ToUnlockRx(next: Next)
                 | ToResume(next: Next)

  /** Where a task is in a call: outside, about to enter the first critical section (perhaps because it was woken), about
      to suspend the scheduler, inside, blocked, or out of time. */
  datatype Pc = Idle | Ready(op: Op, woken: bool) | Deciding(op: Op) | Suspended(op: Op, phase: Phase) | Blocked(op: Op)
              | TimedOut(op: Op)
  {
    function Next(): Next {
      if Suspended? && phase.ToUnlockTx? then phase.next
      else if Suspended? && phase.ToUnlockRx? then phase.next
      else if Suspended? && phase.ToResume? then phase.next
      else Retry
    }

    /** On an event list. */
    predicate Listed(sends: bool) {
      !Idle? && op.Sends() == sends && (Blocked? || Next() == Wait(false))
    }

    /** Taken off an event list, and not yet back at the first critical section. */
    predicate Woken(sends: bool) {
      !Idle? && op.Sends() == sends && ((Ready? && woken) || Next() == Wait(true))
    }

    /** xTaskRemoveFromEventList, as the removed task sees it */
    function Wake(): Pc {
      match this
      case Blocked(op) => Ready(op, true)
      case Suspended(op, ToUnlockTx(_)) => Suspended(op, ToUnlockTx(Wait(true)))
      case Suspended(op, ToUnlockRx(_)) => Suspended(op, ToUnlockRx(Wait(true)))
      case Suspended(op, ToResume(_)) => Suspended(op, ToResume(Wait(true)))
      case _ => this
    }
  }

  const UNLOCKED: int := -1
  const LOCKED_UNMODIFIED: int := 0
  const INT8_MAX: int := 127
  const NOBODY: int := -1

  /** `holder` is the task that has suspended the scheduler. */
  datatype State = State(length: nat, messages: nat, rxLock: int, txLock: int,
                         receivers: seq<nat>, senders: seq<nat>, tasks: seq<Pc>, holder: int)

  datatype Action =
    | Call(t: nat, op: Op)
    | Attempt(t: nat, timeLeft: bool)
    | Suspend(t: nat)
    | Lock(t: nat)
    | CheckTime(t: nat, expired: bool)
    | CheckQueue(t: nat)
    | Place(t: nat, position: nat)
    | UnlockTx(t: nat)
    | UnlockRx(t: nat)
    | Resume(t: nat)
    | Recheck(t: nat)
    | Tick(t: nat)
    | IsrSend(overwrite: bool)
    | IsrReceive

  // ----- wake-ups

  /** Takes the first waiting receiver, the one of highest priority, off its list. */
  function WakeReceiver(s: State): State {
    if s.receivers == [] || s.receivers[0] >= |s.tasks| then s
    else s.(receivers := s.receivers[1..], tasks := s.tasks[s.receivers[0] := s.tasks[s.receivers[0]].Wake()])
  }

  function WakeSender(s: State): State {
    if s.senders == [] || s.senders[0] >= |s.tasks| then s
    else s.(senders := s.senders[1..], tasks := s.tasks[s.senders[0] := s.tasks[s.senders[0]].Wake()])
  }

  /** The loops of prvUnlockQueue: one wake-up for each postponed one, as long as tasks wait. */
  function WakeReceivers(s: State, k: int): State
    decreases if k > 0 then k else 0
  {
    if k <= 0 || s.receivers == [] then s else WakeReceivers(WakeReceiver(s), k - 1)
  }

  function WakeSenders(s: State, k: int): State
    decreases if k > 0 then k else 0
  {
    if k <= 0 || s.senders == [] then s else WakeSenders(WakeSender(s), k - 1)
  }

  // ----- the actions

  /** The operation can be done now. */
  predicate Possible(s: State, op: Op) {
    match op
    case Receive => s.messages > 0
    case Peek => s.messages > 0
    case Send => s.messages < s.length
    case Overwrite => true
  }

  /** An operation done by a task, with the wake-up it causes. */
  function Perform(s: State, op: Op): State
    requires Possible(s, op)
  {
    match op
    case Receive => WakeSender(s.(messages := s.messages - 1))
    case Peek => WakeReceiver(s)
    case Send => WakeReceiver(s.(messages := s.messages + 1))
    case Overwrite => WakeReceiver(s.(messages := if s.messages > 0 then s.messages else 1))
  }

  function Goto(s: State, t: nat, pc: Pc): State
    requires t < |s.tasks|
  {
    s.(tasks := s.tasks[t := pc])
  }

  predicate Enabled(s: State, a: Action) {
    match a
    case IsrSend(overwrite) => (overwrite ==> s.length == 1) && s.txLock < INT8_MAX
    case IsrReceive => s.rxLock < INT8_MAX
    case _ =>
      && a.t < |s.tasks| && (s.holder == NOBODY || (s.holder == a.t && !a.Tick?))
      && var pc := s.tasks[a.t];
         match a
         case Call(_, op) => pc == Idle && (op == Overwrite ==> s.length == 1)
         case Attempt(_, _) => pc.Ready?
         case Suspend(_) => pc.Deciding?
         case Lock(_) => pc.Suspended? && pc.phase == ToLock
         case CheckTime(_, _) => pc.Suspended? && pc.phase == ToCheckTime
         case CheckQueue(_) => pc.Suspended? && pc.phase == ToCheckQueue
         case Place(_, position) =>
           pc.Suspended? && pc.phase == ToPlace && position <= if pc.op.Sends() then |s.senders| else |s.receivers|
         case UnlockTx(_) => pc.Suspended? && pc.phase.ToUnlockTx?
         case UnlockRx(_) => pc.Suspended? && pc.phase.ToUnlockRx?
         case Resume(_) => pc.Suspended? && pc.phase.ToResume?
         case Recheck(_) => pc.TimedOut?
         case Tick(_) => pc.Blocked?
         case _ => false
  }

  function Apply(s: State, a: Action): State
    requires Enabled(s, a)
  {
    match a
    case IsrSend(overwrite) =>
      if s.messages < s.length || overwrite then
        var sent := s.(messages := if s.messages < s.length then s.messages + 1 else s.messages);
        if s.txLock == UNLOCKED then WakeReceiver(sent) else sent.(txLock := s.txLock + 1)
      else s
    case IsrReceive =>
      if s.messages > 0 then
        var taken := s.(messages := s.messages - 1);
        if s.rxLock == UNLOCKED then WakeSender(taken) else taken.(rxLock := s.rxLock + 1)
      else s
    case Call(t, op) => Goto(s, t, Ready(op, false))
    case Attempt(t, timeLeft) =>
      var op := s.tasks[t].op;
      if Possible(s, op) then Perform(Goto(s, t, Idle), op)
      else Goto(s, t, if timeLeft then Deciding(op) else Idle)
    case Suspend(t) => Goto(s.(holder := t), t, Suspended(s.tasks[t].op, ToLock))
    case Lock(t) =>
      Goto(s.(rxLock := if s.rxLock == UNLOCKED then LOCKED_UNMODIFIED else s.rxLock,
              txLock := if s.txLock == UNLOCKED then LOCKED_UNMODIFIED else s.txLock),
           t, Suspended(s.tasks[t].op, ToCheckTime))
    case CheckTime(t, expired) =>
      Goto(s, t, Suspended(s.tasks[t].op, if expired then ToUnlockTx(Quit) else ToCheckQueue))
    case CheckQueue(t) =>
      var op := s.tasks[t].op;
      Goto(s, t, Suspended(op, if Possible(s, op) then ToUnlockTx(Retry) else ToPlace))
    case Place(t, p) =>
      var op := s.tasks[t].op;
      var placed := Goto(s, t, Suspended(op, ToUnlockTx(Wait(false))));
      if op.Sends() then placed.(senders := s.senders[..p] + [t] + s.senders[p..])
      else placed.(receivers := s.receivers[..p] + [t] + s.receivers[p..])
    case UnlockTx(t) =>
      var woken := WakeReceivers(s, s.txLock);
      if t < |woken.tasks| then
        Goto(woken.(txLock := UNLOCKED), t, Suspended(s.tasks[t].op, ToUnlockRx(woken.tasks[t].Next())))
      else s
    case UnlockRx(t) =>
      var woken := WakeSenders(s, s.rxLock);
      if t < |woken.tasks| then
        Goto(woken.(rxLock := UNLOCKED), t, Suspended(s.tasks[t].op, ToResume(woken.tasks[t].Next())))
      else s
    case Resume(t) =>
      var op := s.tasks[t].op;
      Goto(s.(holder := NOBODY), t,
           match s.tasks[t].phase.next
           case Wait(woken) => if woken then Ready(op, true) else Blocked(op)
           case Retry => Ready(op, false)
           case Quit => if op.Sends() then Idle else TimedOut(op))
    case Recheck(t) =>
      var op := s.tasks[t].op;
      Goto(s, t, if Possible(s, op) then Ready(op, false) else Idle)
    case Tick(t) =>
      var op := s.tasks[t].op;
      var awake := Goto(s, t, Ready(op, false));
      if op.Sends() then awake.(senders := RemoveFirst(s.senders, t)) else awake.(receivers := RemoveFirst(s.receivers, t))
  }
}
