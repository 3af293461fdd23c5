/** The control fields of a queue object, updated in place by the critical sections of queue.c. Each method is one action
    of `QueueLock` and is proved to compute it. */
module QueueControl {
  import opened KernelList
  import opened QueueLock
  import opened QueueWakeUp
  import opened QueueConservation

  function AllButFirst(list: seq<nat>): seq<nat> { if list == [] then [] else list[1..] }

  lemma ReceiversLeft(s: State, k: nat)
    requires Listing(s) && Locks(s)
    ensures WakeReceivers(s, k).receivers == s.receivers[Least(k, |s.receivers|)..]
  {
    FirstReceiversAreWoken(s, k);
  }

  lemma SendersLeft(s: State, k: nat)
    requires Listing(s) && Locks(s)
    ensures WakeSenders(s, k).senders == s.senders[Least(k, |s.senders|)..]
  {
    FirstSendersAreWoken(s, k);
  }

  lemma NoneForNegative(s: State, k: int)
    ensures WakeReceivers(s, k) == WakeReceivers(s, Positive(k)) && WakeSenders(s, k) == WakeSenders(s, Positive(k))
  {
  }

  class Queue {
    const length: nat
    var messagesWaiting: nat
    var rxLock: int
    var txLock: int
    var tasksWaitingToReceive: seq<nat>
    var tasksWaitingToSend: seq<nat>
    /** Where each task of the system is in its call, and which one has suspended the scheduler. */
    var tasks: seq<Pc>
    var schedulerHolder: int

    ghost function View(): State
      reads this
    {
      State(length, messagesWaiting, rxLock, txLock, tasksWaitingToReceive, tasksWaitingToSend, tasks, schedulerHolder)
    }

    /** xQueueGenericReset of a new queue, in a system of n tasks */
    constructor (length: nat, n: nat)
      requires length > 0
      ensures View() == Start(length, n) && Inv(View())
    {
      this.length := length;
      messagesWaiting, rxLock, txLock := 0, UNLOCKED, UNLOCKED;
      tasksWaitingToReceive, tasksWaitingToSend := [], [];
      tasks, schedulerHolder := seq(n, _ => Idle), NOBODY;
      new;
      StartInv(length, n);
    }

    /** prvLockQueue */
    method LockQueue(t: nat)
      requires Inv(View()) && Enabled(View(), Lock(t))
      modifies this
      ensures Inv(View()) && View() == Apply(old(View()), Lock(t))
      ensures rxLock == (if old(rxLock) == UNLOCKED then LOCKED_UNMODIFIED else old(rxLock))
      ensures txLock == (if old(txLock) == UNLOCKED then LOCKED_UNMODIFIED else old(txLock))
      ensures messagesWaiting == old(messagesWaiting)
    {
      ActionKeepsInv(View(), Lock(t));
      if rxLock == UNLOCKED {
        rxLock := LOCKED_UNMODIFIED;
      }
      if txLock == UNLOCKED {
        txLock := LOCKED_UNMODIFIED;
      }
      tasks := tasks[t := Suspended(tasks[t].op, ToCheckTime)];
    }

    /** xTaskRemoveFromEventList on the list of receivers, which has entries */
    method WakeFirstReceiver()
      requires Listing(View()) && tasksWaitingToReceive != []
      modifies this`tasksWaitingToReceive, this`tasks
      ensures View() == WakeReceiver(old(View()))
      ensures tasksWaitingToReceive == old(tasksWaitingToReceive)[1..] && tasksWaitingToSend == old(tasksWaitingToSend)
      ensures tasks == old(tasks)[old(tasksWaitingToReceive)[0] := old(tasks[tasksWaitingToReceive[0]]).Wake()]
    {
      FirstListed(View());
      var t := tasksWaitingToReceive[0];
      tasksWaitingToReceive := tasksWaitingToReceive[1..];
      tasks := tasks[t := tasks[t].Wake()];
    }

    method WakeFirstSender()
      requires Listing(View()) && tasksWaitingToSend != []
      modifies this`tasksWaitingToSend, this`tasks
      ensures View() == WakeSender(old(View()))
      ensures tasksWaitingToSend == old(tasksWaitingToSend)[1..] && tasksWaitingToReceive == old(tasksWaitingToReceive)
      ensures tasks == old(tasks)[old(tasksWaitingToSend)[0] := old(tasks[tasksWaitingToSend[0]]).Wake()]
    {
      FirstListed(View());
      var t := tasksWaitingToSend[0];
      tasksWaitingToSend := tasksWaitingToSend[1..];
      tasks := tasks[t := tasks[t].Wake()];
    }

    /** The first loop of prvUnlockQueue: one wake-up for each postponed one, as long as tasks wait */
    method WakePostponedReceivers()
      requires Listing(View()) && Locks(View())
      modifies this`tasksWaitingToReceive, this`tasks
      ensures Listing(View()) && View() == old(WakeReceivers(View(), txLock))
    {
      hide Lists, Locks;
      WakeReceiversKeeps(View(), txLock);
      ghost var target := WakeReceivers(View(), txLock);
      var lock := txLock;
      while lock > LOCKED_UNMODIFIED
        invariant Listing(View()) && Locks(View()) && |tasks| == old(|tasks|)
        invariant WakeReceivers(View(), lock) == target
        decreases lock
      {
        if tasksWaitingToReceive != [] {
          WakeReceiverKeeps(View());
          WakeFirstReceiver();
        } else {
          break;
        }
        lock := lock - 1;
      }
    }

    /** The first critical section of prvUnlockQueue */
    method UnlockTxHalf(t: nat)
      requires Inv(View()) && Enabled(View(), UnlockTx(t))
      modifies this
      ensures Inv(View()) && View() == Apply(old(View()), UnlockTx(t))
      ensures txLock == UNLOCKED && messagesWaiting == old(messagesWaiting)
      ensures tasksWaitingToReceive == old(tasksWaitingToReceive[Least(Positive(txLock), |tasksWaitingToReceive|)..])
    {
      hide Lists, Locks, NothingLost, WakeReceivers;
      ActionKeepsInv(View(), UnlockTx(t));
      ReceiversLeft(View(), Positive(txLock));
      NoneForNegative(View(), txLock);
      WakeReceiversKeeps(View(), txLock);
      var op := tasks[t].op;
      WakePostponedReceivers();
      txLock := UNLOCKED;
      tasks := tasks[t := Suspended(op, ToUnlockRx(tasks[t].Next()))];
    }

    /** The second loop of prvUnlockQueue: one wake-up for each postponed one, as long as tasks wait */
    method WakePostponedSenders()
      requires Listing(View()) && Locks(View())
      modifies this`tasksWaitingToSend, this`tasks
      ensures Listing(View()) && View() == old(WakeSenders(View(), rxLock))
    {
      hide Lists, Locks;
      WakeSendersKeeps(View(), rxLock);
      ghost var target := WakeSenders(View(), rxLock);
      var lock := rxLock;
      while lock > LOCKED_UNMODIFIED
        invariant Listing(View()) && Locks(View()) && |tasks| == old(|tasks|)
        invariant WakeSenders(View(), lock) == target
        decreases lock
      {
        if tasksWaitingToSend != [] {
          WakeSenderKeeps(View());
          WakeFirstSender();
        } else {
          break;
        }
        lock := lock - 1;
      }
    }

    /** The second critical section of prvUnlockQueue */
    method UnlockRxHalf(t: nat)
      requires Inv(View()) && Enabled(View(), UnlockRx(t))
      modifies this
      ensures Inv(View()) && View() == Apply(old(View()), UnlockRx(t))
      ensures rxLock == UNLOCKED && messagesWaiting == old(messagesWaiting)
      ensures tasksWaitingToSend == old(tasksWaitingToSend[Least(Positive(rxLock), |tasksWaitingToSend|)..])
    {
      hide Lists, Locks, NothingLost, WakeSenders;
      ActionKeepsInv(View(), UnlockRx(t));
      SendersLeft(View(), Positive(rxLock));
      NoneForNegative(View(), rxLock);
      WakeSendersKeeps(View(), rxLock);
      var op := tasks[t].op;
      WakePostponedSenders();
      rxLock := UNLOCKED;
      tasks := tasks[t := Suspended(op, ToResume(tasks[t].Next()))];
    }

    /** The critical section of xQueueGenericSendFromISR */
    method SendFromISR(overwrite: bool) returns (sent: bool)
      requires Inv(View()) && Enabled(View(), IsrSend(overwrite))
      modifies this
      ensures Inv(View()) && View() == Apply(old(View()), IsrSend(overwrite))
      ensures sent <==> overwrite || old(messagesWaiting) < length
      ensures messagesWaiting == old(messagesWaiting) + if old(messagesWaiting) < length then 1 else 0
      ensures sent && old(txLock) != UNLOCKED ==>
                txLock == old(txLock) + 1 && tasksWaitingToReceive == old(tasksWaitingToReceive)
      ensures sent && old(txLock) == UNLOCKED ==> tasksWaitingToReceive == old(AllButFirst(tasksWaitingToReceive))
    {
      ActionKeepsInv(View(), IsrSend(overwrite));
      sent := messagesWaiting < length || overwrite;
      if sent {
        if messagesWaiting < length {
          messagesWaiting := messagesWaiting + 1;
        }
        if txLock == UNLOCKED {
          if tasksWaitingToReceive != [] {
            WakeFirstReceiver();
          }
        } else {
          txLock := txLock + 1;
        }
      }
    }

    /** The critical section of xQueueReceiveFromISR */
    method ReceiveFromISR() returns (received: bool)
      requires Inv(View()) && Enabled(View(), IsrReceive)
      modifies this
      ensures Inv(View()) && View() == Apply(old(View()), IsrReceive)
      ensures received <==> old(messagesWaiting) > 0
      ensures messagesWaiting == old(messagesWaiting) - if received then 1 else 0
      ensures received && old(rxLock) != UNLOCKED ==>
                rxLock == old(rxLock) + 1 && tasksWaitingToSend == old(tasksWaitingToSend)
      ensures received && old(rxLock) == UNLOCKED ==> tasksWaitingToSend == old(AllButFirst(tasksWaitingToSend))
    {
      ActionKeepsInv(View(), IsrReceive);
      received := messagesWaiting > 0;
      if received {
        messagesWaiting := messagesWaiting - 1;
        if rxLock == UNLOCKED {
          if tasksWaitingToSend != [] {
            WakeFirstSender();
          }
        } else {
          rxLock := rxLock + 1;
        }
      }
    }

    /** The first critical section of xQueueGenericSend, xQueueReceive and xQueuePeek */
    method TryOperation(t: nat, timeLeft: bool) returns (done: bool)
      requires Inv(View()) && Enabled(View(), Attempt(t, timeLeft))
      modifies this
      ensures Inv(View()) && View() == Apply(old(View()), Attempt(t, timeLeft))
      ensures done <==> old(CanDo(View(), tasks[t].op))
      ensures var op, before := old(tasks[t].op), old(messagesWaiting);
              messagesWaiting == if !done || op == Peek then before
                                 else if op == Receive then before - 1
                                 else if op == Overwrite && before > 0 then before
                                 else before + 1
      ensures tasks[t] == if done || !timeLeft then Idle else Deciding(old(tasks[t].op))
      ensures tasksWaitingToSend == if done && old(tasks[t].op) == Receive then old(AllButFirst(tasksWaitingToSend))
                                    else old(tasksWaitingToSend)
      ensures tasksWaitingToReceive == if done && old(tasks[t].op) != Receive then old(AllButFirst(tasksWaitingToReceive))
                                       else old(tasksWaitingToReceive)
    {
      hide Lists, Locks, NothingLost, Count;
      ActionKeepsInv(View(), Attempt(t, timeLeft));
      var op := tasks[t].op;
      done := match op
        case Send => messagesWaiting < length
        case Overwrite => true
        case Receive => messagesWaiting > 0
        case Peek => messagesWaiting > 0;
      if !done {
        tasks := tasks[t := if timeLeft then Deciding(op) else Idle];
        return;
      }
      GotoKeepsLists(View(), t, Idle);
      tasks := tasks[t := Idle];
      match op {
        case Receive => messagesWaiting := messagesWaiting - 1;
        case Peek =>
        case Send => messagesWaiting := messagesWaiting + 1;
        case Overwrite =>
          if messagesWaiting == 0 {
            messagesWaiting := 1;
          }
      }
      if op == Receive {
        if tasksWaitingToSend != [] {
          WakeFirstSender();
        }
      } else if tasksWaitingToReceive != [] {
        WakeFirstReceiver();
      }
    }
  }
}
