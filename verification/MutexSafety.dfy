/** What every action keeps, as long as no task waits for a mutex while holding one and the processor is always with a
    ready task of the highest priority. */
module MutexSafety {
  import opened KernelList
  import opened MutexInheritance

  function HeldBy(mutexes: seq<Mutex>, t: int): nat {
    if mutexes == [] then 0 else (if mutexes[0].holder == t then 1 else 0) + HeldBy(mutexes[1..], t)
  }

  /** The waiters of m are the tasks that are blocked on it, each once, in descending order of priority. */
  ghost predicate WaitersOk(s: State, m: nat)
    requires WellFormed(s) && m < |s.mutexes|
  {
    var waiters := s.mutexes[m].waiters;
    && (forall t :: 0 <= t < |s.tasks| ==> (t in waiters <==> s.tasks[t].pc.Blocked? && s.tasks[t].pc.m == m))
    && (forall i, j :: 0 <= i < j < |waiters| ==>
          waiters[i] != waiters[j] && s.tasks[waiters[j]].priority <= s.tasks[waiters[i]].priority)
  }

  ghost predicate Above(s: State, t: nat, m: nat)
    requires WellFormed(s) && m < |s.mutexes| && t < |s.tasks|
  {
    forall i :: 0 <= i < |s.mutexes[m].waiters| ==> s.tasks[s.mutexes[m].waiters[i]].priority <= s.tasks[t].priority
  }

  /** A task that was woken for m, or called for it, and is about to try. */
  predicate Tries(s: State, t: nat, m: nat)
    requires t < |s.tasks|
  {
    s.tasks[t].pc.Trying? && s.tasks[t].pc.m == m && s.tasks[t].held == 0
  }

  /** A holder is as urgent as every task it keeps waiting; and while a mutex is free, a task as urgent as every waiter
      is about to try for it. */
  ghost predicate UrgencyOk(s: State, m: nat)
    requires WellFormed(s) && m < |s.mutexes|
  {
    var h := s.mutexes[m].holder;
    if h != NOBODY then Above(s, h, m)
    else s.mutexes[m].waiters != [] ==> exists t :: 0 <= t < |s.tasks| && Tries(s, t, m) && Above(s, t, m)
  }

  /** In a call that may block or has blocked. */
  predicate Waits(pc: Pc) {
    pc.Blocked? || pc.Deciding? || pc.GivingUp? || pc.Disinheriting? || (pc.Trying? && pc.timeLeft)
  }

  ghost predicate TaskOk(s: State, t: nat)
    requires t < |s.tasks|
  {
    var task := s.tasks[t];
    && task.base <= task.priority
    && task.held == HeldBy(s.mutexes, t)
    && (task.held == 0 ==> task.priority == task.base)
    && (Waits(task.pc) ==> task.held == 0)
  }

  ghost predicate Inv(s: State) {
    && WellFormed(s)
    && (forall t :: 0 <= t < |s.tasks| ==> TaskOk(s, t))
    && (forall m :: 0 <= m < |s.mutexes| ==> WaitersOk(s, m) && UrgencyOk(s, m))
  }

  // ----- counting

  lemma {:induction false} HeldByUpdate(mutexes: seq<Mutex>, m: nat, mutex: Mutex, t: int)
    requires m < |mutexes|
    ensures HeldBy(mutexes[m := mutex], t) + (if mutexes[m].holder == t then 1 else 0)
         == HeldBy(mutexes, t) + (if mutex.holder == t then 1 else 0)
    decreases m
  {
    var updated := mutexes[m := mutex];
    if m == 0 {
      assert updated[1..] == mutexes[1..];
    } else {
      assert updated[1..] == mutexes[1..][m - 1 := mutex];
      HeldByUpdate(mutexes[1..], m - 1, mutex, t);
    }
  }

  lemma {:induction false} HolderHolds(mutexes: seq<Mutex>, m: nat)
    requires m < |mutexes|
    ensures HeldBy(mutexes, mutexes[m].holder) >= 1
    decreases m
  {
    if m > 0 {
      assert mutexes[m] == mutexes[1..][m - 1];
      HolderHolds(mutexes[1..], m - 1);
    }
  }

  lemma {:induction false} HoldsTwo(mutexes: seq<Mutex>, m: nat, k: nat)
    requires m < k < |mutexes| && mutexes[m].holder == mutexes[k].holder
    ensures HeldBy(mutexes, mutexes[m].holder) >= 2
    decreases m
  {
    if m == 0 {
      assert mutexes[k] == mutexes[1..][k - 1];
      HolderHolds(mutexes[1..], k - 1);
    } else {
      assert mutexes[m] == mutexes[1..][m - 1] && mutexes[k] == mutexes[1..][k - 1];
      HoldsTwo(mutexes[1..], m - 1, k - 1);
    }
  }

  /** A task that is the holder of m is not waiting. */
  lemma HolderIsNotWaiting(s: State, m: nat)
    requires Inv(s) && m < |s.mutexes| && s.mutexes[m].holder != NOBODY
    ensures s.tasks[s.mutexes[m].holder].held > 0
    ensures !s.tasks[s.mutexes[m].holder].pc.Blocked?
  {
    var h := s.mutexes[m].holder;
    HolderHolds(s.mutexes, m);
    assert TaskOk(s, h);
  }

  // ----- steps that change only where a task is

  lemma GotoKeeps(s: State, t: nat, pc: Pc)
    requires Inv(s) && t < |s.tasks| && PcOk(s, pc)
    requires !s.tasks[t].pc.Blocked? && !pc.Blocked?
    requires s.tasks[t].pc.Trying? ==> s.mutexes[s.tasks[t].pc.m].holder != NOBODY || s.tasks[t].held > 0
    requires Waits(pc) ==> s.tasks[t].held == 0
    ensures Inv(Goto(s, t, pc))
  {
    var s' := Goto(s, t, pc);
    assert WellFormed(s');
    forall u | 0 <= u < |s'.tasks| ensures TaskOk(s', u) {
      assert TaskOk(s, u);
    }
    forall m | 0 <= m < |s'.mutexes| ensures WaitersOk(s', m) && UrgencyOk(s', m) {
      hide HeldBy;
      assert WaitersOk(s, m) && UrgencyOk(s, m);
      if s.mutexes[m].holder == NOBODY && s.mutexes[m].waiters != [] {
        var u :| 0 <= u < |s.tasks| && Tries(s, u, m) && Above(s, u, m);
        assert Tries(s', u, m) && Above(s', u, m);
      }
    }
  }

  // ----- taking

  /** Whoever takes a free mutex is as urgent as all its waiters, because the processor is with no less urgent a task
      than the one that was woken for it. */
  lemma TakerIsUrgent(s: State, t: nat, m: nat)
    requires Inv(s) && m < |s.mutexes| && Highest(s, t) && s.mutexes[m].holder == NOBODY
    ensures Above(s, t, m)
  {
    assert UrgencyOk(s, m);
  }

  lemma GrantKeeps(s: State, t: nat, m: nat)
    requires Inv(s) && Highest(s, t) && m < |s.mutexes| && s.tasks[t].pc.Trying? && s.tasks[t].pc.m == m
    requires s.mutexes[m].holder == NOBODY
    ensures Inv(Grant(s, t, m))
  {
    var s' := Grant(s, t, m);
    TakerIsUrgent(s, t, m);
    forall u | 0 <= u < |s'.tasks| ensures TaskOk(s', u) {
      assert TaskOk(s, u);
      HeldByUpdate(s.mutexes, m, s'.mutexes[m], u);
    }
    assert WellFormed(s');
    forall k | 0 <= k < |s'.mutexes| ensures WaitersOk(s', k) && UrgencyOk(s', k) {
      hide HeldBy;
      assert WaitersOk(s, k) && UrgencyOk(s, k);
      if k == m {
        assert Above(s', t, m);
      } else if s.mutexes[k].holder == NOBODY && s.mutexes[k].waiters != [] {
        var u :| 0 <= u < |s.tasks| && Tries(s, u, k) && Above(s, u, k);
        assert Tries(s', u, k) && Above(s', u, k);
      }
    }
  }

  // ----- waiting

  /** Raising a task that holds something disturbs nothing. */
  lemma RaiseKeeps(s: State, h: nat, priority: nat)
    requires Inv(s) && h < |s.tasks| && s.tasks[h].held > 0 && s.tasks[h].priority <= priority
    ensures Inv(SetPriority(s, h, priority))
  {
    var s' := SetPriority(s, h, priority);
    assert WellFormed(s');
    forall u | 0 <= u < |s'.tasks| ensures TaskOk(s', u) {
      assert TaskOk(s, u);
    }
    assert TaskOk(s, h);
    forall k | 0 <= k < |s'.mutexes| ensures WaitersOk(s', k) && UrgencyOk(s', k) {
      hide HeldBy;
      assert WaitersOk(s, k) && UrgencyOk(s, k);
      assert h !in s.mutexes[k].waiters;
      assert forall i :: 0 <= i < |s.mutexes[k].waiters| ==> s.mutexes[k].waiters[i] in s.mutexes[k].waiters;
      if s.mutexes[k].holder == NOBODY && s.mutexes[k].waiters != [] {
        var u :| 0 <= u < |s.tasks| && Tries(s, u, k) && Above(s, u, k);
        assert Tries(s', u, k) && Above(s', u, k);
      }
    }
  }

  ghost predicate Descending(s: State, waiters: seq<nat>) {
    && (forall i :: 0 <= i < |waiters| ==> waiters[i] < |s.tasks|)
    && (forall i, j :: 0 <= i < j < |waiters| ==>
          waiters[i] != waiters[j] && s.tasks[waiters[j]].priority <= s.tasks[waiters[i]].priority)
  }

  lemma DescendingFirst(s: State, x: nat, rest: seq<nat>)
    requires Descending(s, rest) && x < |s.tasks|
    requires forall u :: u in rest ==> u != x && u < |s.tasks| && s.tasks[u].priority <= s.tasks[x].priority
    ensures Descending(s, [x] + rest)
  {
    assert forall i :: 0 <= i < |rest| ==> rest[i] in rest;
  }

  lemma DescendingRest(s: State, waiters: seq<nat>)
    requires Descending(s, waiters) && waiters != []
    ensures Descending(s, waiters[1..])
    ensures forall u :: u in waiters <==> u == waiters[0] || u in waiters[1..]
    ensures forall u :: u in waiters[1..] ==>
              u != waiters[0] && u < |s.tasks| && s.tasks[u].priority <= s.tasks[waiters[0]].priority
  {
    assert waiters == [waiters[0]] + waiters[1..];
    forall u | u in waiters[1..]
      ensures u != waiters[0] && u < |s.tasks| && s.tasks[u].priority <= s.tasks[waiters[0]].priority
    {
      var i :| 0 <= i < |waiters[1..]| && waiters[1..][i] == u;
      assert waiters[i + 1] == u;
    }
  }

  lemma {:induction false} InsertOk(s: State, waiters: seq<nat>, t: nat)
    requires t < |s.tasks| && Descending(s, waiters) && t !in waiters
    ensures Descending(s, Insert(s, waiters, t))
    ensures forall u :: u in Insert(s, waiters, t) <==> u == t || u in waiters
  {
    if waiters != [] {
      DescendingRest(s, waiters);
      if s.tasks[waiters[0]].priority >= s.tasks[t].priority {
        InsertOk(s, waiters[1..], t);
        DescendingFirst(s, waiters[0], Insert(s, waiters[1..], t));
      } else {
        DescendingFirst(s, t, waiters);
      }
    }
  }

  lemma {:induction false} RemoveFirstOk(s: State, waiters: seq<nat>, t: nat)
    requires Descending(s, waiters)
    ensures Descending(s, RemoveFirst(waiters, t))
    ensures forall u :: u in RemoveFirst(waiters, t) <==> u in waiters && u != t
  {
    if waiters != [] {
      DescendingRest(s, waiters);
      var first, rest := waiters[0], RemoveFirst(waiters[1..], t);
      RemoveFirstOk(s, waiters[1..], t);
      if first != t {
        hide Descending;
        DescendingFirst(s, first, rest);
      }
    }
  }

  /** What a change to the list of m and the place of t must be like. */
  ghost predicate ListChange(s: State, t: nat, m: nat, pc: Pc, waiters: seq<nat>)
    requires WellFormed(s)
  {
    && t < |s.tasks| && m < |s.mutexes| && PcOk(s, pc) && s.tasks[t].held == 0
    && Descending(s, waiters)
    && (forall u :: u in waiters <==> (u == t && pc.Blocked?) || (u != t && u in s.mutexes[m].waiters))
    && if pc.Blocked? then
         && pc.m == m && s.mutexes[m].holder != NOBODY && !s.tasks[t].pc.Blocked? && !s.tasks[t].pc.Trying?
         && s.tasks[t].priority <= s.tasks[s.mutexes[m].holder].priority
       else s.tasks[t].pc.Blocked? && s.tasks[t].pc.m == m
  }

  lemma ListKeepsWaiters(s: State, t: nat, m: nat, pc: Pc, waiters: seq<nat>, k: nat)
    requires WellFormed(s) && ListChange(s, t, m, pc, waiters) && k < |s.mutexes| && WaitersOk(s, k)
    ensures WellFormed(SetWaiters(Goto(s, t, pc), m, waiters))
    ensures WaitersOk(SetWaiters(Goto(s, t, pc), m, waiters), k)
  {
  }

  lemma ListKeepsUrgency(s: State, t: nat, m: nat, pc: Pc, waiters: seq<nat>, k: nat)
    requires WellFormed(s) && ListChange(s, t, m, pc, waiters) && k < |s.mutexes| && UrgencyOk(s, k)
    ensures WellFormed(SetWaiters(Goto(s, t, pc), m, waiters))
    ensures UrgencyOk(SetWaiters(Goto(s, t, pc), m, waiters), k)
  {
    var s' := SetWaiters(Goto(s, t, pc), m, waiters);
    hide WaitersOk;
    if s.mutexes[k].holder != NOBODY {
      ListKeepsAbove(s, t, m, pc, waiters, k, s.mutexes[k].holder);
    } else if s'.mutexes[k].waiters != [] {
      assert s'.mutexes[k].waiters[0] in s'.mutexes[k].waiters;
      assert s.mutexes[k].waiters != [];
      var u :| 0 <= u < |s.tasks| && Tries(s, u, k) && Above(s, u, k);
      ListKeepsAbove(s, t, m, pc, waiters, k, u);
      assert Tries(s', u, k);
    }
  }

  lemma ListKeepsAbove(s: State, t: nat, m: nat, pc: Pc, waiters: seq<nat>, k: nat, u: nat)
    requires WellFormed(s) && ListChange(s, t, m, pc, waiters) && k < |s.mutexes|
    requires u < |s.tasks| && Above(s, u, k) && (k == m && pc.Blocked? ==> u == s.mutexes[m].holder)
    ensures WellFormed(SetWaiters(Goto(s, t, pc), m, waiters))
    ensures Above(SetWaiters(Goto(s, t, pc), m, waiters), u, k)
  {
    var s' := SetWaiters(Goto(s, t, pc), m, waiters);
    forall i | 0 <= i < |s'.mutexes[k].waiters|
      ensures s'.tasks[s'.mutexes[k].waiters[i]].priority <= s'.tasks[u].priority
    {
      var w := s'.mutexes[k].waiters[i];
      assert w in s'.mutexes[k].waiters;
      if w in s.mutexes[k].waiters {
        var j :| 0 <= j < |s.mutexes[k].waiters| && s.mutexes[k].waiters[j] == w;
      }
    }
  }

  /** The waiting list of m and the place of t change together; the rest stays as it is. */
  lemma ListKeeps(s: State, t: nat, m: nat, pc: Pc, waiters: seq<nat>)
    requires Inv(s) && ListChange(s, t, m, pc, waiters)
    ensures Inv(SetWaiters(Goto(s, t, pc), m, waiters))
  {
    var s' := SetWaiters(Goto(s, t, pc), m, waiters);
    forall u | 0 <= u < |s'.tasks| ensures TaskOk(s', u) {
      assert TaskOk(s, u);
      HeldByUpdate(s.mutexes, m, s'.mutexes[m], u);
    }
    assert WellFormed(s');
    forall k | 0 <= k < |s'.mutexes| ensures WaitersOk(s', k) && UrgencyOk(s', k) {
      ListKeepsWaiters(s, t, m, pc, waiters, k);
      ListKeepsUrgency(s, t, m, pc, waiters, k);
    }
  }

  lemma WaitKeeps(s: State, t: nat, m: nat)
    requires Inv(s) && t < |s.tasks| && s.tasks[t].pc.Deciding? && s.tasks[t].pc.m == m
    requires s.mutexes[m].holder != NOBODY
    ensures Inv(Wait(s, t, m))
  {
    var h, waiters := s.mutexes[m].holder, s.mutexes[m].waiters;
    var raised := Inherit(s, h, t);
    assert TaskOk(s, t);
    HolderIsNotWaiting(s, m);
    if s.tasks[h].priority < s.tasks[t].priority {
      RaiseKeeps(s, h, s.tasks[t].priority);
    }
    assert WaitersOk(raised, m);
    InsertOk(raised, waiters, t);
    var inserted := Insert(raised, waiters, t);
    hide Inherit, Insert, Descending;
    assert ListChange(raised, t, m, Blocked(m, Inherits(s, h, t)), inserted);
    ListKeeps(raised, t, m, Blocked(m, Inherits(s, h, t)), inserted);
  }

  lemma ExpireKeeps(s: State, t: nat)
    requires Inv(s) && Possible(s, Expire(t))
    ensures Inv(Apply(s, Expire(t)))
  {
    var Blocked(m, inherited) := s.tasks[t].pc;
    assert WaitersOk(s, m) && TaskOk(s, t);
    RemoveFirstOk(s, s.mutexes[m].waiters, t);
    ListKeeps(s, t, m, Trying(m, true, inherited), RemoveFirst(s.mutexes[m].waiters, t));
  }

  // ----- disinheriting

  /** A task that holds one mutex only can come down to what that mutex's waiters need. */
  lemma LowerKeeps(s: State, m: nat)
    requires Inv(s) && m < |s.mutexes|
    ensures Inv(DisinheritAfterTimeout(s, m))
  {
    var h := s.mutexes[m].holder;
    var s' := DisinheritAfterTimeout(s, m);
    if h != NOBODY && s.tasks[h].held == 1 {
      assert WellFormed(s');
      assert TaskOk(s, h);
      HolderIsNotWaiting(s, m);
      forall u | 0 <= u < |s'.tasks| ensures TaskOk(s', u) {
        assert TaskOk(s, u);
      }
      forall k | 0 <= k < |s'.mutexes| ensures WaitersOk(s', k) && UrgencyOk(s', k) {
        assert WaitersOk(s, k) && UrgencyOk(s, k);
        if k < m && s.mutexes[k].holder == h {
          HoldsTwo(s.mutexes, k, m);
        } else if m < k && s.mutexes[k].holder == h {
          HoldsTwo(s.mutexes, m, k);
        }
        hide HeldBy;
        assert h !in s.mutexes[k].waiters;
        assert forall i :: 0 <= i < |s.mutexes[k].waiters| ==> s.mutexes[k].waiters[i] in s.mutexes[k].waiters;
        if s.mutexes[k].holder == NOBODY && s.mutexes[k].waiters != [] {
          var u :| 0 <= u < |s.tasks| && Tries(s, u, k) && Above(s, u, k);
          assert Tries(s', u, k) && Above(s', u, k);
        }
      }
    }
  }

  // ----- giving

  /** Between giving a mutex up and waking its first waiter, all is well but that the mutex has nobody urgent. */
  lemma FreedOk(s: State, t: nat, m: nat)
    requires Inv(s) && Possible(s, Give(t, m))
    ensures var s' := Freed(s, t, m);
            && WellFormed(s')
            && (forall u :: 0 <= u < |s'.tasks| ==> TaskOk(s', u))
            && (forall k :: 0 <= k < |s'.mutexes| ==> WaitersOk(s', k) && (k != m ==> UrgencyOk(s', k)))
  {
    var s' := Freed(s, t, m);
    assert WellFormed(s');
    assert TaskOk(s, t);
    forall u | 0 <= u < |s'.tasks| ensures TaskOk(s', u) {
      assert TaskOk(s, u);
      HeldByUpdate(s.mutexes, m, s'.mutexes[m], u);
    }
    forall k | 0 <= k < |s'.mutexes| ensures WaitersOk(s', k) && (k != m ==> UrgencyOk(s', k)) {
      assert WaitersOk(s, k) && UrgencyOk(s, k);
      if k < m && s.mutexes[k].holder == t {
        HoldsTwo(s.mutexes, k, m);
      } else if m < k && s.mutexes[k].holder == t {
        HoldsTwo(s.mutexes, m, k);
      }
      hide HeldBy;
      assert t !in s.mutexes[k].waiters;
      assert forall i :: 0 <= i < |s.mutexes[k].waiters| ==> s.mutexes[k].waiters[i] in s.mutexes[k].waiters;
      if k != m && s.mutexes[k].holder == NOBODY && s.mutexes[k].waiters != [] {
        var u :| 0 <= u < |s.tasks| && Tries(s, u, k) && Above(s, u, k);
        assert Tries(s', u, k) && Above(s', u, k);
      }
    }
  }

  /** The first waiter is as urgent as those behind it, so waking it makes up for the holder that has gone. */
  lemma WakeFirstKeeps(s: State, m: nat)
    requires WellFormed(s) && m < |s.mutexes| && s.mutexes[m].holder == NOBODY
    requires forall t :: 0 <= t < |s.tasks| ==> TaskOk(s, t)
    requires forall k :: 0 <= k < |s.mutexes| ==> WaitersOk(s, k) && (k != m ==> UrgencyOk(s, k))
    ensures Inv(WakeFirst(s, m))
  {
    var waiters, s' := s.mutexes[m].waiters, WakeFirst(s, m);
    assert WaitersOk(s, m);
    if waiters != [] {
      var w := waiters[0];
      assert w in waiters && TaskOk(s, w);
      var pc := Trying(m, true, s.tasks[w].pc.inherited);
      DescendingRest(s, waiters);
      assert ListChange(s, w, m, pc, waiters[1..]);
      forall u | 0 <= u < |s'.tasks| ensures TaskOk(s', u) {
        assert TaskOk(s, u);
        HeldByUpdate(s.mutexes, m, s'.mutexes[m], u);
      }
      hide HeldBy, TaskOk;
      forall k | 0 <= k < |s'.mutexes| ensures WaitersOk(s', k) && UrgencyOk(s', k) {
        ListKeepsWaiters(s, w, m, pc, waiters[1..], k);
        if k != m {
          ListKeepsUrgency(s, w, m, pc, waiters[1..], k);
        } else {
          WokenIsUrgent(s, m);
        }
      }
    }
  }

  lemma WokenIsUrgent(s: State, m: nat)
    requires WellFormed(s) && m < |s.mutexes| && s.mutexes[m].holder == NOBODY && WaitersOk(s, m)
    requires s.mutexes[m].waiters != [] ==> s.tasks[s.mutexes[m].waiters[0]].held == 0
    ensures WellFormed(WakeFirst(s, m)) && UrgencyOk(WakeFirst(s, m), m)
  {
    var waiters, s' := s.mutexes[m].waiters, WakeFirst(s, m);
    if waiters != [] {
      assert Tries(s', waiters[0], m);
      assert forall i :: 0 <= i < |waiters[1..]| ==> waiters[1..][i] == waiters[i + 1];
      assert Above(s', waiters[0], m);
    }
  }

  lemma GiveKeeps(s: State, t: nat, m: nat)
    requires Inv(s) && Possible(s, Give(t, m))
    ensures Inv(Apply(s, Give(t, m)))
  {
    FreedOk(s, t, m);
    WakeFirstKeeps(Freed(s, t, m), m);
  }

  // ----- every action, every run

  lemma TakeKeeps(s: State, t: nat)
    requires Inv(s) && Enabled(s, Take(t))
    ensures Inv(Apply(s, Take(t)))
  {
    var Trying(m, timeLeft, inherited) := s.tasks[t].pc;
    assert TaskOk(s, t);
    if s.mutexes[m].holder == NOBODY {
      GrantKeeps(s, t, m);
    } else {
      GotoKeeps(s, t, if timeLeft then Deciding(m, inherited) else Out);
    }
  }

  lemma SuspendKeeps(s: State, t: nat, expired: bool)
    requires Inv(s) && Enabled(s, Suspend(t, expired))
    ensures Inv(Apply(s, Suspend(t, expired)))
  {
    var Deciding(m, inherited) := s.tasks[t].pc;
    assert TaskOk(s, t);
    if expired {
      GotoKeeps(s, t, GivingUp(m, inherited));
    } else if s.mutexes[m].holder == NOBODY {
      GotoKeeps(s, t, Trying(m, true, inherited));
    } else {
      WaitKeeps(s, t, m);
    }
  }

  lemma ActionKeepsInv(s: State, a: Action)
    requires Inv(s) && Enabled(s, a)
    ensures Inv(Apply(s, a))
  {
    assert TaskOk(s, a.t);
    match a
    case Awake(t) => GotoKeeps(s, t, Out);
    case Sleep(t) => GotoKeeps(s, t, Asleep);
    case Call(t, m, timeLeft) => GotoKeeps(s, t, Trying(m, timeLeft, false));
    case Take(t) => TakeKeeps(s, t);
    case Suspend(t, expired) => SuspendKeeps(s, t, expired);
    case Expire(t) => ExpireKeeps(s, t);
    case GiveUp(t) =>
      var GivingUp(m, inherited) := s.tasks[t].pc;
      GotoKeeps(s, t, if s.mutexes[m].holder == NOBODY then Trying(m, false, inherited)
                      else if inherited then Disinheriting(m) else Out);
    case Disinherit(t) =>
      var m := s.tasks[t].pc.m;
      GotoKeeps(s, t, Out);
      LowerKeeps(Goto(s, t, Out), m);
    case Give(t, m) => GiveKeeps(s, t, m);
  }

  ghost predicate Runs(s: State, actions: seq<Action>)
    decreases |actions|
  {
    actions == [] || (Enabled(s, actions[0]) && Runs(Apply(s, actions[0]), actions[1..]))
  }

  ghost function After(s: State, actions: seq<Action>): State
    requires Runs(s, actions)
    decreases |actions|
  {
    if actions == [] then s else After(Apply(s, actions[0]), actions[1..])
  }

  lemma {:induction false} RunKeepsInv(s: State, actions: seq<Action>)
    requires Inv(s) && Runs(s, actions)
    ensures Inv(After(s, actions))
    decreases |actions|
  {
    hide Inv, Apply;
    if actions != [] {
      ActionKeepsInv(s, actions[0]);
      RunKeepsInv(Apply(s, actions[0]), actions[1..]);
    }
  }

  ghost predicate Initial(s: State) {
    && (forall t :: 0 <= t < |s.tasks| ==>
          s.tasks[t].pc.Asleep? && s.tasks[t].held == 0 && s.tasks[t].priority == s.tasks[t].base)
    && (forall m :: 0 <= m < |s.mutexes| ==> s.mutexes[m] == Mutex(NOBODY, []))
  }

  lemma {:induction false} NobodyHolds(mutexes: seq<Mutex>, t: nat)
    requires forall m :: 0 <= m < |mutexes| ==> mutexes[m].holder == NOBODY
    ensures HeldBy(mutexes, t) == 0
  {
    if mutexes != [] {
      NobodyHolds(mutexes[1..], t);
    }
  }

  lemma InitialInv(s: State)
    requires Initial(s)
    ensures Inv(s)
  {
    forall t | 0 <= t < |s.tasks| ensures TaskOk(s, t) {
      NobodyHolds(s.mutexes, t);
    }
  }

  /**
   * Priority inheritance. In every run, a holder is at least as urgent as every task that waits for a mutex it holds, its
   * count of mutexes is the number it holds, and a task that holds none has its own priority.
   */
  lemma HoldersAreUrgent(s: State, actions: seq<Action>)
    requires Initial(s) && Runs(s, actions)
    ensures var e := After(s, actions);
            && (forall t: nat, m: nat :: KeptWaiting(e, t, m) ==>
                  e.tasks[t].priority <= e.tasks[e.mutexes[m].holder].priority)
            && (forall t :: 0 <= t < |e.tasks| ==>
                  && e.tasks[t].held == HeldBy(e.mutexes, t)
                  && e.tasks[t].base <= e.tasks[t].priority
                  && (e.tasks[t].held == 0 ==> e.tasks[t].priority == e.tasks[t].base))
  {
    InitialInv(s);
    RunKeepsInv(s, actions);
    hide HeldBy, Runs, After;
    var e := After(s, actions);
    forall t: nat, m: nat | KeptWaiting(e, t, m) ensures e.tasks[t].priority <= e.tasks[e.mutexes[m].holder].priority {
      assert WaitersOk(e, m) && UrgencyOk(e, m);
      var i :| 0 <= i < |e.mutexes[m].waiters| && e.mutexes[m].waiters[i] == t;
    }
    forall t | 0 <= t < |e.tasks|
      ensures e.tasks[t].held == HeldBy(e.mutexes, t) && e.tasks[t].base <= e.tasks[t].priority
      ensures e.tasks[t].held == 0 ==> e.tasks[t].priority == e.tasks[t].base
    {
      assert TaskOk(e, t);
    }
  }

  /** Task t is blocked on mutex m, which another task holds. */
  predicate KeptWaiting(s: State, t: nat, m: nat) {
    && t < |s.tasks| && m < |s.mutexes|
    && s.tasks[t].pc.Blocked? && s.tasks[t].pc.m == m
    && 0 <= s.mutexes[m].holder < |s.tasks|
  }
}
