/** No wake-up is lost: what holds in every state that any interleaving of tasks and interrupts reaches. */
module QueueWakeUp {
  import opened KernelList
  import opened QueueLock

  /** How many tasks have been woken and have not yet retried. */
  function Count(tasks: seq<Pc>, sends: bool): nat {
    if tasks == [] then 0 else (if tasks[0].Woken(sends) then 1 else 0) + Count(tasks[1..], sends)
  }

  lemma {:induction false} CountUpdate(tasks: seq<Pc>, t: nat, pc: Pc, sends: bool)
    requires t < |tasks|
    ensures Count(tasks[t := pc], sends) + (if tasks[t].Woken(sends) then 1 else 0)
         == Count(tasks, sends) + (if pc.Woken(sends) then 1 else 0)
  {
    if t > 0 {
      assert tasks[t := pc][1..] == tasks[1..][t - 1 := pc];
      CountUpdate(tasks[1..], t - 1, pc, sends);
    } else {
      assert tasks[t := pc][1..] == tasks[1..];
    }
  }

  /** The event lists hold exactly the tasks that are listed, each once; an overwriting send is never among them. */
  ghost predicate Lists(receivers: seq<nat>, senders: seq<nat>, tasks: seq<Pc>) {
    && Distinct(receivers) && Distinct(senders)
    && (forall t: nat :: t in receivers <==> t < |tasks| && tasks[t].Listed(false))
    && (forall t: nat :: t in senders <==> t < |tasks| && tasks[t].Listed(true))
    && (forall t {:trigger tasks[t]} :: 0 <= t < |tasks| ==> OverwriteNeverWaits(tasks[t]))
  }

  predicate OverwriteNeverWaits(pc: Pc) {
    pc.Idle? || pc.op != Overwrite || pc == Ready(Overwrite, false)
  }

  ghost predicate Listing(s: State) {
    Lists(s.receivers, s.senders, s.tasks)
  }

  predicate TxLocked(pc: Pc) {
    pc.Suspended? && (pc.phase.ToCheckTime? || pc.phase.ToCheckQueue? || pc.phase.ToPlace? || pc.phase.ToUnlockTx?)
  }

  predicate RxLocked(pc: Pc) {
    TxLocked(pc) || (pc.Suspended? && pc.phase.ToUnlockRx?)
  }

  /** Only the task that suspended the scheduler is inside, and the queue is locked exactly while it is past the lock and
      not past the unlock. */
  ghost predicate Locks(s: State) {
    && NOBODY <= s.holder < |s.tasks|
    && (forall t {:trigger s.tasks[t]} :: 0 <= t < |s.tasks| ==> (s.tasks[t].Suspended? <==> t == s.holder))
    && UNLOCKED <= s.txLock <= INT8_MAX && UNLOCKED <= s.rxLock <= INT8_MAX
    && (s.txLock != UNLOCKED <==> s.holder != NOBODY && TxLocked(s.tasks[s.holder]))
    && (s.rxLock != UNLOCKED <==> s.holder != NOBODY && RxLocked(s.tasks[s.holder]))
  }

  function Positive(lock: int): nat {
    if lock > 0 then lock else 0
  }

  /** A task of this kind waits, or has found that it must and is about to be listed. */
  ghost predicate Waiting(s: State, sends: bool) {
    || (if sends then s.senders != [] else s.receivers != [])
    || (0 <= s.holder < |s.tasks| && s.tasks[s.holder].Suspended? && s.tasks[s.holder].phase == ToPlace &&
        s.tasks[s.holder].op.Sends() == sends)
  }

  /** While a receiver waits, each message is covered by a woken receiver that has not retried, or by a postponed wake-up;
      and so for the free slots while a sender waits. */
  ghost predicate NothingLost(s: State) {
    && (Waiting(s, false) ==> s.messages <= Count(s.tasks, false) + Positive(s.txLock))
    && (Waiting(s, true) ==> s.length - s.messages <= Count(s.tasks, true) + Positive(s.rxLock))
  }

  ghost predicate Inv(s: State) {
    s.length > 0 && s.messages <= s.length && Listing(s) && Locks(s) && NothingLost(s)
  }

  /** What a wake-up of a receiver changes: one waiting receiver fewer, one woken receiver more, nothing else. */
  ghost predicate Same(s: State, r: State) {
    && Listing(r) && Locks(r) && |r.tasks| == |s.tasks|
    && r.length == s.length && r.messages == s.messages && r.rxLock == s.rxLock && r.txLock == s.txLock
    && r.holder == s.holder
    && (0 <= s.holder < |s.tasks| ==>
          && r.tasks[s.holder].Suspended? && s.tasks[s.holder].Suspended?
          && r.tasks[s.holder].op == s.tasks[s.holder].op
          && (s.tasks[s.holder].Next() != Wait(false) ==> r.tasks[s.holder] == s.tasks[s.holder]))
  }

  lemma WakeReceiverKeeps(s: State)
    requires Listing(s) && Locks(s)
    ensures var r := WakeReceiver(s);
            && Same(s, r) && r.senders == s.senders && (Waiting(r, false) ==> Waiting(s, false))
            && (Waiting(r, true) <==> Waiting(s, true))
            && Count(r.tasks, true) == Count(s.tasks, true)
            && (s.receivers == [] ==> r == s)
            && (s.receivers != [] ==> r.receivers == s.receivers[1..] && Count(r.tasks, false) == Count(s.tasks, false) + 1)
  {
    hide Count, Lists;
    if s.receivers != [] {
      var t := s.receivers[0];
      FirstListed(s);
      CountUpdate(s.tasks, t, s.tasks[t].Wake(), false);
      CountUpdate(s.tasks, t, s.tasks[t].Wake(), true);
    }
  }

  lemma WakeSenderKeeps(s: State)
    requires Listing(s) && Locks(s)
    ensures var r := WakeSender(s);
            && Same(s, r) && r.receivers == s.receivers && (Waiting(r, true) ==> Waiting(s, true))
            && (Waiting(r, false) <==> Waiting(s, false))
            && Count(r.tasks, false) == Count(s.tasks, false)
            && (s.senders == [] ==> r == s)
            && (s.senders != [] ==> r.senders == s.senders[1..] && Count(r.tasks, true) == Count(s.tasks, true) + 1)
  {
    hide Count, Lists;
    if s.senders != [] {
      var t := s.senders[0];
      FirstListed(s);
      CountUpdate(s.tasks, t, s.tasks[t].Wake(), false);
      CountUpdate(s.tasks, t, s.tasks[t].Wake(), true);
    }
  }

  /** The first of a list, woken, is on no list any more; its place in a call is otherwise the same. */
  lemma FirstListed(s: State)
    requires Listing(s)
    ensures s.receivers != [] ==>
              var t := s.receivers[0];
              && t < |s.tasks| && s.tasks[t].Listed(false)
              && Lists(s.receivers[1..], s.senders, s.tasks[t := s.tasks[t].Wake()])
    ensures s.senders != [] ==>
              var t := s.senders[0];
              && t < |s.tasks| && s.tasks[t].Listed(true)
              && Lists(s.receivers, s.senders[1..], s.tasks[t := s.tasks[t].Wake()])
  {
    if s.receivers != [] {
      assert s.receivers[0] in s.receivers;
      FirstOut(s.receivers);
    }
    if s.senders != [] {
      assert s.senders[0] in s.senders;
      FirstOut(s.senders);
    }
  }

  lemma FirstOut(list: seq<nat>)
    requires Distinct(list) && list != []
    ensures Distinct(list[1..]) && forall t :: t in list[1..] <==> t in list && t != list[0]
  {
    assert list == [list[0]] + list[1..];
  }

  /** A task that is on no event list before or after moves on. */
  lemma GotoKeepsLists(s: State, t: nat, pc: Pc)
    requires Listing(s) && t < |s.tasks|
    requires OverwriteNeverWaits(pc) && forall sends :: s.tasks[t].Listed(sends) == pc.Listed(sends)
    ensures Listing(Goto(s, t, pc))
    ensures forall sends :: Count(Goto(s, t, pc).tasks, sends) + (if s.tasks[t].Woken(sends) then 1 else 0)
                         == Count(s.tasks, sends) + (if pc.Woken(sends) then 1 else 0)
  {
    CountUpdate(s.tasks, t, pc, false);
    CountUpdate(s.tasks, t, pc, true);
  }

  lemma Overwriter(s: State, t: nat)
    requires Listing(s) && t < |s.tasks|
    ensures OverwriteNeverWaits(s.tasks[t])
  {
  }

  // ----- the actions one by one

  lemma CallKeeps(s: State, a: Action)
    requires Inv(s) && Enabled(s, a) && (a.Call? || a.Suspend? || a.Recheck?)
    ensures Inv(Apply(s, a))
  {
    hide Lists, Count;
    Overwriter(s, a.t);
    var pc := if a.Call? then Ready(a.op, false)
              else if a.Suspend? then Suspended(s.tasks[a.t].op, ToLock)
              else if Possible(s, s.tasks[a.t].op) then Ready(s.tasks[a.t].op, false) else Idle;
    GotoKeepsLists(s, a.t, pc);
  }

  lemma LockKeeps(s: State, a: Action)
    requires Inv(s) && Enabled(s, a) && (a.Lock? || a.CheckTime? || a.CheckQueue?)
    ensures Inv(Apply(s, a))
  {
    hide Lists, Count;
    Overwriter(s, a.t);
    var op := s.tasks[a.t].op;
    var pc := if a.Lock? then Suspended(op, ToCheckTime)
              else if a.CheckTime? then Suspended(op, if a.expired then ToUnlockTx(Quit) else ToCheckQueue)
              else Suspended(op, if Possible(s, op) then ToUnlockTx(Retry) else ToPlace);
    GotoKeepsLists(s, a.t, pc);
  }

  lemma ResumeKeeps(s: State, a: Action)
    requires Inv(s) && Enabled(s, a) && a.Resume?
    ensures Inv(Apply(s, a))
  {
    hide Lists, Count;
    Overwriter(s, a.t);
    GotoKeepsLists(s, a.t, Apply(s, a).tasks[a.t]);
  }

  lemma AttemptKeeps(s: State, a: Action)
    requires Inv(s) && Enabled(s, a) && a.Attempt?
    ensures Inv(Apply(s, a))
  {
    hide Lists, Count;
    Overwriter(s, a.t);
    var op := s.tasks[a.t].op;
    if Possible(s, op) {
      GotoKeepsLists(s, a.t, Idle);
      PerformKeeps(s, Goto(s, a.t, Idle), op, if s.tasks[a.t].woken then 1 else 0);
    } else {
      GotoKeepsLists(s, a.t, if a.timeLeft then Deciding(op) else Idle);
    }
  }

  /** The task that performs the operation may itself account for one wake-up of its kind. */
  lemma PerformKeeps(s: State, q: State, op: Op, own: nat)
    requires Inv(s) && Listing(q) && Locks(q) && Possible(q, op) && own <= 1 && (op == Overwrite ==> own == 0)
    requires s.holder == NOBODY && q == s.(tasks := q.tasks) && |q.tasks| == |s.tasks|
    requires Count(q.tasks, op.Sends()) == Count(s.tasks, op.Sends()) - own
    requires Count(q.tasks, !op.Sends()) == Count(s.tasks, !op.Sends())
    ensures Inv(Perform(q, op))
  {
    hide Lists, Count, WakeReceiver, WakeSender;
    match op
    case Receive => WakeSenderKeeps(q.(messages := q.messages - 1));
    case Peek => WakeReceiverKeeps(q);
    case Send => WakeReceiverKeeps(q.(messages := q.messages + 1));
    case Overwrite => WakeReceiverKeeps(q.(messages := if q.messages > 0 then q.messages else 1));
  }

  lemma IsrKeeps(s: State, a: Action)
    requires Inv(s) && Enabled(s, a) && (a.IsrSend? || a.IsrReceive?)
    ensures Inv(Apply(s, a))
  {
    hide Lists, Count, WakeReceiver, WakeSender;
    if a.IsrSend? {
      WakeReceiverKeeps(s.(messages := if s.messages < s.length then s.messages + 1 else s.messages));
    } else if s.messages > 0 {
      WakeSenderKeeps(s.(messages := s.messages - 1));
    }
  }

  /** Putting the holder on its event list: the postponed wake-ups cover what has arrived since it found it must wait. */
  lemma PlaceKeeps(s: State, a: Action)
    requires Inv(s) && Enabled(s, a) && a.Place?
    ensures Inv(Apply(s, a))
  {
    hide Lists, Count;
    var op := s.tasks[a.t].op;
    var pc := Suspended(op, ToUnlockTx(Wait(false)));
    Overwriter(s, a.t);
    CountUpdate(s.tasks, a.t, pc, false);
    CountUpdate(s.tasks, a.t, pc, true);
    PlaceKeepsLists(s, a.t, pc, a.position);
  }

  lemma PlaceKeepsLists(s: State, t: nat, pc: Pc, p: nat)
    requires Listing(s) && t < |s.tasks| && !s.tasks[t].Listed(false) && !s.tasks[t].Listed(true)
    requires !pc.Idle? && OverwriteNeverWaits(pc) && pc.Listed(pc.op.Sends())
    requires p <= if pc.op.Sends() then |s.senders| else |s.receivers|
    ensures if pc.op.Sends() then Lists(s.receivers, s.senders[..p] + [t] + s.senders[p..], s.tasks[t := pc])
            else Lists(s.receivers[..p] + [t] + s.receivers[p..], s.senders, s.tasks[t := pc])
  {
    InsertContents(if pc.op.Sends() then s.senders else s.receivers, p, t);
  }

  lemma {:induction false} DropContents(list: seq<nat>, t: nat)
    requires Distinct(list)
    ensures Distinct(RemoveFirst(list, t)) && forall u :: u in RemoveFirst(list, t) <==> u in list && u != t
  {
    if list != [] {
      FirstOut(list);
      DropContents(list[1..], t);
      InsertContents(RemoveFirst(list[1..], t), 0, list[0]);
      var rest := RemoveFirst(list[1..], t);
      assert [list[0]] + rest == rest[..0] + [list[0]] + rest[0..];
    }
  }

  /** A time-out takes a blocked task off its list without counting as a wake-up. */
  lemma TickKeeps(s: State, a: Action)
    requires Inv(s) && Enabled(s, a) && a.Tick?
    ensures Inv(Apply(s, a))
  {
    hide Count;
    var pc := Ready(s.tasks[a.t].op, false);
    CountUpdate(s.tasks, a.t, pc, false);
    CountUpdate(s.tasks, a.t, pc, true);
    DropContents(s.receivers, a.t);
    DropContents(s.senders, a.t);
  }

  /** The first half of prvUnlockQueue: each postponed wake-up is made good, or nobody waits any more. */
  lemma {:induction false} WakeReceiversKeeps(s: State, k: int)
    requires Listing(s) && Locks(s)
    ensures var r := WakeReceivers(s, k);
            && Same(s, r) && r.senders == s.senders && (Waiting(r, true) <==> Waiting(s, true))
            && (Waiting(r, false) ==> Waiting(s, false))
            && Count(r.tasks, true) == Count(s.tasks, true)
            && (r.receivers != [] ==> Count(r.tasks, false) == Count(s.tasks, false) + Positive(k))
            && Count(r.tasks, false) >= Count(s.tasks, false)
    decreases Positive(k)
  {
    hide Lists, Count, WakeReceiver;
    if k > 0 && s.receivers != [] {
      WakeReceiverKeeps(s);
      WakeReceiversKeeps(WakeReceiver(s), k - 1);
    }
  }

  lemma {:induction false} WakeSendersKeeps(s: State, k: int)
    requires Listing(s) && Locks(s)
    ensures var r := WakeSenders(s, k);
            && Same(s, r) && r.receivers == s.receivers && (Waiting(r, false) <==> Waiting(s, false))
            && (Waiting(r, true) ==> Waiting(s, true))
            && Count(r.tasks, false) == Count(s.tasks, false)
            && (r.senders != [] ==> Count(r.tasks, true) == Count(s.tasks, true) + Positive(k))
            && Count(r.tasks, true) >= Count(s.tasks, true)
    decreases Positive(k)
  {
    hide Lists, Count, WakeSender;
    if k > 0 && s.senders != [] {
      WakeSenderKeeps(s);
      WakeSendersKeeps(WakeSender(s), k - 1);
    }
  }

  lemma UnlockKeeps(s: State, a: Action)
    requires Inv(s) && Enabled(s, a) && (a.UnlockTx? || a.UnlockRx?)
    ensures Inv(Apply(s, a))
  {
    hide Lists, Count, WakeReceivers, WakeSenders;
    Overwriter(s, a.t);
    var woken := if a.UnlockTx? then WakeReceivers(s, s.txLock) else WakeSenders(s, s.rxLock);
    if a.UnlockTx? {
      WakeReceiversKeeps(s, s.txLock);
    } else {
      WakeSendersKeeps(s, s.rxLock);
    }
    var next := woken.tasks[a.t].Next();
    Overwriter(woken, a.t);
    GotoKeepsLists(woken, a.t, Suspended(s.tasks[a.t].op, if a.UnlockTx? then ToUnlockRx(next) else ToResume(next)));
  }

  /** Every action of every task and every interrupt keeps the invariant. */
  lemma ActionKeepsInv(s: State, a: Action)
    requires Inv(s) && Enabled(s, a)
    ensures Inv(Apply(s, a))
  {
    hide Inv, Enabled, Apply;
    match a
    case Call(_, _) => CallKeeps(s, a);
    case Suspend(_) => CallKeeps(s, a);
    case Recheck(_) => CallKeeps(s, a);
    case Lock(_) => LockKeeps(s, a);
    case CheckTime(_, _) => LockKeeps(s, a);
    case CheckQueue(_) => LockKeeps(s, a);
    case Resume(_) => ResumeKeeps(s, a);
    case Attempt(_, _) => AttemptKeeps(s, a);
    case IsrSend(_) => IsrKeeps(s, a);
    case IsrReceive => IsrKeeps(s, a);
    case Place(_, _) => PlaceKeeps(s, a);
    case Tick(_) => TickKeeps(s, a);
    case UnlockTx(_) => UnlockKeeps(s, a);
    case UnlockRx(_) => UnlockKeeps(s, a);
  }

  // ----- runs

  /** A new queue, prvInitialiseNewQueue, and n tasks outside any call. */
  function Start(length: nat, n: nat): State {
    State(length, 0, UNLOCKED, UNLOCKED, [], [], seq(n, _ => Idle), NOBODY)
  }

  /** The states that some interleaving of `actions` leads to. */
  ghost predicate Reaches(s: State, actions: seq<Action>, r: State)
    decreases |actions|
  {
    if actions == [] then r == s
    else Enabled(s, actions[0]) && Reaches(Apply(s, actions[0]), actions[1..], r)
  }

  lemma {:induction false} RunKeepsInv(s: State, actions: seq<Action>, r: State)
    requires Inv(s) && Reaches(s, actions, r)
    ensures Inv(r)
    decreases |actions|
  {
    hide Inv, Enabled, Apply;
    if actions != [] {
      ActionKeepsInv(s, actions[0]);
      RunKeepsInv(Apply(s, actions[0]), actions[1..], r);
    }
  }

  /** No lost wake-up, for every interleaving of tasks, time-outs and interrupts: while some task is listed to receive,
      every message is covered by a woken receiver that has yet to retry or by a postponed wake-up; and so is every free
      slot while some task is listed to send. */
  lemma NoLostWakeUp(length: nat, n: nat, actions: seq<Action>, r: State)
    requires length > 0 && Reaches(Start(length, n), actions, r)
    ensures r.receivers != [] ==> r.messages <= Count(r.tasks, false) + Positive(r.txLock)
    ensures r.senders != [] ==> r.length - r.messages <= Count(r.tasks, true) + Positive(r.rxLock)
    ensures r.messages <= r.length == length
  {
    StartInv(length, n);
    RunKeepsInv(Start(length, n), actions, r);
    LengthStays(Start(length, n), actions, r);
  }

  lemma StartInv(length: nat, n: nat)
    requires length > 0
    ensures Inv(Start(length, n))
  {
  }

  lemma {:induction false} LengthStays(s: State, actions: seq<Action>, r: State)
    requires Inv(s) && Reaches(s, actions, r)
    ensures r.length == s.length
    decreases |actions|
  {
    if actions != [] {
      ActionKeepsInv(s, actions[0]);
      ApplyKeepsLength(s, actions[0]);
      LengthStays(Apply(s, actions[0]), actions[1..], r);
    }
  }

  lemma ApplyKeepsLength(s: State, a: Action)
    requires Inv(s) && Enabled(s, a)
    ensures Apply(s, a).length == s.length
  {
    if a.UnlockTx? {
      WakeReceiversKeeps(s, s.txLock);
    } else if a.UnlockRx? {
      WakeSendersKeeps(s, s.rxLock);
    }
  }

  /** Once the dust has settled, nobody inside a call with the scheduler suspended and no woken task left to retry, tasks
      wait to receive only at an empty queue and to send only at a full one; so they never wait on both sides. */
  lemma QuietQueueBlocksRightly(length: nat, n: nat, actions: seq<Action>, r: State)
    requires length > 0 && Reaches(Start(length, n), actions, r)
    requires r.holder == NOBODY && forall t :: 0 <= t < |r.tasks| ==> !(r.tasks[t].Ready? && r.tasks[t].woken)
    ensures r.receivers != [] ==> r.messages == 0
    ensures r.senders != [] ==> r.messages == length
    ensures r.receivers == [] || r.senders == []
  {
    StartInv(length, n);
    RunKeepsInv(Start(length, n), actions, r);
    NoLostWakeUp(length, n, actions, r);
    NobodyWoken(r.tasks, false);
    NobodyWoken(r.tasks, true);
  }

  lemma {:induction false} NobodyWoken(tasks: seq<Pc>, sends: bool)
    requires forall t :: 0 <= t < |tasks| ==> !tasks[t].Suspended? && !(tasks[t].Ready? && tasks[t].woken)
    ensures Count(tasks, sends) == 0
  {
    if tasks != [] {
      NobodyWoken(tasks[1..], sends);
    }
  }
}
