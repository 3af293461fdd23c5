/** No message is lost or made up: over every interleaving the count of waiting messages is what has been sent less what has
    been received. And how a task's call comes to its end. */
module QueueConservation {
  import opened QueueLock
  import opened QueueWakeUp

  // ----- what a step counts for, by the queue's fill alone

  predicate CanSend(s: State) { s.messages < s.length }

  predicate CanReceive(s: State) { s.messages > 0 }

  /** Task t enters the first critical section of its call. */
  predicate Tries(s: State, a: Action, op: Op) {
    a.Attempt? && a.t < |s.tasks| && s.tasks[a.t].Ready? && s.tasks[a.t].op == op
  }

  /** A send, by a task or an interrupt, that puts one more message in; an overwriting one does so on an empty queue only. */
  predicate PutsOne(s: State, a: Action) {
    (CanSend(s) && (a.IsrSend? || Tries(s, a, Send))) || (!CanReceive(s) && Tries(s, a, Overwrite))
  }

  /** A receive, by a task or an interrupt, that takes one message out */
  predicate TakesOne(s: State, a: Action) {
    CanReceive(s) && (a.IsrReceive? || Tries(s, a, Receive))
  }

  lemma WakingCountsNothing(s: State)
    ensures WakeReceiver(s).messages == s.messages && WakeSender(s).messages == s.messages
  {
  }

  /** One step: a put counts one, a take one less, and nothing else counts: no peek, no attempt in vain, no time-out, no
      lock or unlock. */
  lemma StepConserves(s: State, a: Action)
    requires Inv(s) && Enabled(s, a)
    ensures Apply(s, a).messages
         == s.messages + (if PutsOne(s, a) then 1 else 0) - if TakesOne(s, a) then 1 else 0
  {
    hide Lists, Locks, NothingLost, Count, WakeReceivers, WakeSenders, WakeReceiver, WakeSender;
    if a.UnlockTx? {
      WakeReceiversKeeps(s, s.txLock);
    } else if a.UnlockRx? {
      WakeSendersKeeps(s, s.rxLock);
    } else if a.IsrReceive? && CanReceive(s) {
      WakingCountsNothing(s.(messages := s.messages - 1));
    } else if a.IsrSend? {
      WakingCountsNothing(s.(messages := if s.messages < s.length then s.messages + 1 else s.messages));
    } else if a.Attempt? {
      AttemptConserves(s, a);
    }
  }

  lemma AttemptConserves(s: State, a: Action)
    requires Enabled(s, a) && a.Attempt?
    ensures Apply(s, a).messages
         == s.messages + (if PutsOne(s, a) then 1 else 0) - if TakesOne(s, a) then 1 else 0
  {
  }

  // ----- runs, with the counts kept beside them

  ghost function Puts(s: State, actions: seq<Action>, r: State): nat
    requires Reaches(s, actions, r)
    decreases |actions|
  {
    if actions == [] then 0
    else (if PutsOne(s, actions[0]) then 1 else 0) + Puts(Apply(s, actions[0]), actions[1..], r)
  }

  ghost function Takes(s: State, actions: seq<Action>, r: State): nat
    requires Reaches(s, actions, r)
    decreases |actions|
  {
    if actions == [] then 0
    else (if TakesOne(s, actions[0]) then 1 else 0) + Takes(Apply(s, actions[0]), actions[1..], r)
  }

  lemma {:induction false} RunConserves(s: State, actions: seq<Action>, r: State)
    requires Inv(s) && Reaches(s, actions, r)
    ensures r.messages == s.messages + Puts(s, actions, r) - Takes(s, actions, r)
    decreases |actions|
  {
    hide Inv, Enabled, Apply, PutsOne, TakesOne;
    if actions != [] {
      StepConserves(s, actions[0]);
      ActionKeepsInv(s, actions[0]);
      RunConserves(Apply(s, actions[0]), actions[1..], r);
    }
  }

  /** In every interleaving from a new queue, the messages waiting are the successful puts less the successful takes, and
      never more than the queue is long. */
  lemma MessagesAreConserved(length: nat, n: nat, actions: seq<Action>, r: State)
    requires length > 0 && Reaches(Start(length, n), actions, r)
    ensures r.messages == Puts(Start(length, n), actions, r) - Takes(Start(length, n), actions, r) <= length
  {
    StartInv(length, n);
    RunConserves(Start(length, n), actions, r);
    NoLostWakeUp(length, n, actions, r);
  }

  // ----- how a call ends

  predicate CanDo(s: State, op: Op) {
    match op
    case Send => CanSend(s)
    case Overwrite => true
    case _ => CanReceive(s)
  }

  /**
   * A call comes to its end in four ways only: it does its operation; it may not wait and cannot do it; it sends and its
   * time had run out when it looked; or it receives, its time had run out, and the queue is empty still.
   */
  lemma CallEndsExactly(s: State, a: Action, t: nat)
    requires Inv(s) && Enabled(s, a) && t < |s.tasks| && s.tasks[t] != Idle
    ensures |Apply(s, a).tasks| == |s.tasks|
    ensures Apply(s, a).tasks[t] == Idle <==>
              var pc := s.tasks[t];
              || (a.Attempt? && a.t == t && (CanDo(s, pc.op) || !a.timeLeft))
              || (a.Resume? && a.t == t && pc.phase.next == Quit && pc.op.Sends())
              || (a.Recheck? && a.t == t && !CanDo(s, pc.op))
  {
    hide Inv, Enabled, Apply, CanDo;
    if a.UnlockTx? || a.UnlockRx? {
      UnlockEndsNothing(s, a, t);
    } else if a.Attempt? || a.IsrSend? || a.IsrReceive? {
      WakingStepEnds(s, a, t);
    } else {
      OtherStepEnds(s, a, t);
    }
  }

  lemma OtherStepEnds(s: State, a: Action, t: nat)
    requires Enabled(s, a) && t < |s.tasks| && s.tasks[t] != Idle
    requires !a.UnlockTx? && !a.UnlockRx? && !a.Attempt? && !a.IsrSend? && !a.IsrReceive?
    ensures |Apply(s, a).tasks| == |s.tasks|
    ensures Apply(s, a).tasks[t] == Idle <==>
              var pc := s.tasks[t];
              || (a.Resume? && a.t == t && pc.phase.next == Quit && pc.op.Sends())
              || (a.Recheck? && a.t == t && !CanDo(s, pc.op))
  {
  }

  lemma WakingStepEnds(s: State, a: Action, t: nat)
    requires Enabled(s, a) && t < |s.tasks| && s.tasks[t] != Idle
    requires a.Attempt? || a.IsrSend? || a.IsrReceive?
    ensures |Apply(s, a).tasks| == |s.tasks|
    ensures Apply(s, a).tasks[t] == Idle <==> a.Attempt? && a.t == t && (CanDo(s, s.tasks[t].op) || !a.timeLeft)
  {
    hide WakeReceiver, WakeSender, Perform;
    if a.Attempt? {
      if Possible(s, s.tasks[a.t].op) {
        PerformEndsNothing(Goto(s, a.t, Idle), s.tasks[a.t].op, t);
      }
    } else if a.IsrSend? {
      WakingEndsNothing(s.(messages := if s.messages < s.length then s.messages + 1 else s.messages), t);
    } else if s.messages > 0 {
      WakingEndsNothing(s.(messages := s.messages - 1), t);
    }
  }

  lemma PerformEndsNothing(s: State, op: Op, t: nat)
    requires Possible(s, op)
    ensures |Perform(s, op).tasks| == |s.tasks|
    ensures t < |s.tasks| ==> (Perform(s, op).tasks[t] == Idle <==> s.tasks[t] == Idle)
  {
    hide WakeReceiver, WakeSender;
    match op
    case Receive => WakingEndsNothing(s.(messages := s.messages - 1), t);
    case Peek => WakingEndsNothing(s, t);
    case Send => WakingEndsNothing(s.(messages := s.messages + 1), t);
    case Overwrite => WakingEndsNothing(s.(messages := if s.messages > 0 then s.messages else 1), t);
  }

  lemma WakingEndsNothing(s: State, t: nat)
    ensures |WakeReceiver(s).tasks| == |WakeSender(s).tasks| == |s.tasks|
    ensures t < |s.tasks| ==> (WakeReceiver(s).tasks[t] == Idle <==> s.tasks[t] == Idle)
    ensures t < |s.tasks| ==> (WakeSender(s).tasks[t] == Idle <==> s.tasks[t] == Idle)
  {
  }

  lemma UnlockEndsNothing(s: State, a: Action, t: nat)
    requires Inv(s) && Enabled(s, a) && t < |s.tasks| && s.tasks[t] != Idle && (a.UnlockTx? || a.UnlockRx?)
    ensures |Apply(s, a).tasks| == |s.tasks| && Apply(s, a).tasks[t] != Idle
  {
    hide Lists, Locks, NothingLost, Count, WakeReceivers, WakeSenders;
    WakingReceiversEndsNothing(s, s.txLock, t);
    WakingSendersEndsNothing(s, s.rxLock, t);
  }

  lemma {:induction false} WakingReceiversEndsNothing(s: State, k: int, t: nat)
    requires t < |s.tasks| && s.tasks[t] != Idle
    ensures |WakeReceivers(s, k).tasks| == |s.tasks| && WakeReceivers(s, k).tasks[t] != Idle
    decreases Positive(k)
  {
    if k > 0 && s.receivers != [] {
      WakingReceiversEndsNothing(WakeReceiver(s), k - 1, t);
    }
  }

  lemma {:induction false} WakingSendersEndsNothing(s: State, k: int, t: nat)
    requires t < |s.tasks| && s.tasks[t] != Idle
    ensures |WakeSenders(s, k).tasks| == |s.tasks| && WakeSenders(s, k).tasks[t] != Idle
    decreases Positive(k)
  {
    if k > 0 && s.senders != [] {
      WakingSendersEndsNothing(WakeSender(s), k - 1, t);
    }
  }

  /** A call is on its way to such an end only if its time had run out when it looked; and it goes to wait exactly if, with
      time left, it cannot do its operation. */
  lemma WaitsExactly(s: State, a: Action)
    requires Enabled(s, a) && (a.CheckTime? || a.CheckQueue?)
    ensures Apply(s, a).tasks[a.t].Suspended?
    ensures a.CheckTime? ==> (Apply(s, a).tasks[a.t].Next() == Quit <==> a.expired)
    ensures a.CheckTime? ==> (Apply(s, a).tasks[a.t].phase == ToCheckQueue <==> !a.expired)
    ensures a.CheckQueue? ==> (Apply(s, a).tasks[a.t].phase == ToPlace <==> !CanDo(s, s.tasks[a.t].op))
    ensures a.CheckQueue? ==> Apply(s, a).tasks[a.t].Next() == Retry
  {
  }

  // ----- who is woken

  /** The tasks of the list woken, one after the other */
  function WokenAll(tasks: seq<Pc>, list: seq<nat>): (woken: seq<Pc>)
    ensures |woken| == |tasks|
    decreases |list|
  {
    if list == [] then tasks else WokenAll(WokenOne(tasks, list[0]), list[1..])
  }

  function WokenOne(tasks: seq<Pc>, t: nat): (woken: seq<Pc>)
    ensures |woken| == |tasks|
  {
    if t < |tasks| then tasks[t := tasks[t].Wake()] else tasks
  }

  lemma WokenTwice(pc: Pc)
    ensures pc.Wake().Wake() == pc.Wake()
  {
  }

  lemma {:induction false} WokenAllAt(tasks: seq<Pc>, list: seq<nat>, t: nat)
    requires t < |tasks|
    ensures WokenAll(tasks, list)[t] == if t in list then tasks[t].Wake() else tasks[t]
    decreases |list|
  {
    if list != [] {
      var rest := list[1..];
      assert list == [list[0]] + rest;
      WokenTwice(tasks[t]);
      WokenAllAt(WokenOne(tasks, list[0]), rest, t);
    }
  }

  function Least(a: nat, b: nat): nat { if a < b then a else b }

  lemma FirstOf(list: seq<nat>, k: nat)
    requires k > 0 && list != []
    ensures var m := Least(k, |list|);
            && m > 0 && Least(k - 1, |list[1..]|) == m - 1
            && list[..m][1..] == list[1..][..m - 1] && list[m..] == list[1..][m - 1..]
  {
  }

  lemma OneReceiverWoken(s: State, k: nat)
    requires Listing(s) && Locks(s) && s.receivers != [] && k > 0
    ensures var r := WakeReceiver(s);
            && Listing(r) && Locks(r) && r.receivers == s.receivers[1..] && r.tasks == WokenOne(s.tasks, s.receivers[0])
            && WakeReceivers(s, k) == WakeReceivers(r, k - 1)
  {
    WakeReceiverKeeps(s);
    FirstListed(s);
    hide Count, Lists, Locks, Pc.Wake;
  }

  /** Postponed wake-ups go to the first of the list, one each, in its order. */
  lemma {:induction false} FirstReceiversAreWoken(s: State, k: nat)
    requires Listing(s) && Locks(s)
    ensures var m := Least(k, |s.receivers|);
            && WakeReceivers(s, k).receivers == s.receivers[m..]
            && WakeReceivers(s, k).tasks == WokenAll(s.tasks, s.receivers[..m])
    decreases k
  {
    hide Listing, Locks, Pc.Wake, WokenOne, WakeReceiver;
    if k > 0 && s.receivers != [] {
      FirstOf(s.receivers, k);
      OneReceiverWoken(s, k);
      FirstReceiversAreWoken(WakeReceiver(s), k - 1);
    }
  }

  lemma OneSenderWoken(s: State, k: nat)
    requires Listing(s) && Locks(s) && s.senders != [] && k > 0
    ensures var r := WakeSender(s);
            && Listing(r) && Locks(r) && r.senders == s.senders[1..] && r.tasks == WokenOne(s.tasks, s.senders[0])
            && WakeSenders(s, k) == WakeSenders(r, k - 1)
  {
    WakeSenderKeeps(s);
    FirstListed(s);
    hide Count, Lists, Locks, Pc.Wake;
  }

  lemma {:induction false} FirstSendersAreWoken(s: State, k: nat)
    requires Listing(s) && Locks(s)
    ensures var m := Least(k, |s.senders|);
            && WakeSenders(s, k).senders == s.senders[m..]
            && WakeSenders(s, k).tasks == WokenAll(s.tasks, s.senders[..m])
    decreases k
  {
    hide Listing, Locks, Pc.Wake, WokenOne, WakeSender;
    if k > 0 && s.senders != [] {
      FirstOf(s.senders, k);
      OneSenderWoken(s, k);
      FirstSendersAreWoken(WakeSender(s), k - 1);
    }
  }
}
