/** When the periodic scheduler keeps every constraint, for runs of any length from a synchronous release. */
module Schedulability {
  import opened Arithmetic
  import opened KernelList
  import opened WeaklyHard
  import opened Periodic
  import opened PeriodicTasks
  import opened Demand
  import opened TaskInvariants
  import opened SkipPattern

  /** The work that the red jobs of the pattern ask for in the first `len` ticks. */
  ghost function TotalDemand(alg: Algorithm, ps: seq<Params>, len: nat): int
    requires ValidTaskSet(ps)
  {
    Sum(Demands(alg, ps, len))
  }

  ghost function Demands(alg: Algorithm, ps: seq<Params>, len: nat): (r: seq<int>)
    requires ValidTaskSet(ps)
    ensures |r| == |ps|
  {
    seq<int>(|ps|, i requires 0 <= i < |ps| =>
      assert ps[i].Valid(); ps[i].duration * Reds(Tolerance(alg, ps[i]), len / ps[i].period))
  }

  /** No interval from time 0 is asked to hold more work than it has ticks. */
  ghost predicate DemandFits(alg: Algorithm, ps: seq<Params>)
    requires ValidTaskSet(ps)
  {
    forall len: nat :: TotalDemand(alg, ps, len) <= len
  }

  /** The deadlines that occur up to tick n leave the two marker bits of the BWP keys free. */
  ghost predicate KeysFit(alg: Algorithm, ps: seq<Params>, n: nat) {
    alg == BWP ==> forall p <- ps :: n + p.period < BIT30
  }

  // ----- states of a run

  ghost predicate AllInv(alg: Algorithm, ps: seq<Params>, v: Snapshot)
    requires ValidTaskSet(ps)
  {
    && |v.tasks| == |ps| && Picked(v)
    && forall i {:trigger v.tasks[i]} :: 0 <= i < |ps| ==> TaskInv(alg, ps[i], v.now, v.tasks[i])
  }

  ghost function Works(alg: Algorithm, ps: seq<Params>, v: Snapshot, d: nat): (r: seq<int>)
    requires ValidTaskSet(ps) && |v.tasks| == |ps|
    ensures |r| == |ps|
  {
    seq<int>(|ps|, i requires 0 <= i < |ps| => Work(alg, ps[i], v.now, d, v.tasks[i]))
  }

  /** Whatever the horizon, the work that may still be asked for fits. */
  ghost predicate WorkFits(alg: Algorithm, ps: seq<Params>, v: Snapshot)
    requires ValidTaskSet(ps) && |v.tasks| == |ps|
  {
    forall d: nat :: v.now <= d ==> Sum(Works(alg, ps, v, d)) <= d - v.now
  }

  /** Every state of every run satisfies the task invariants, schedulable or not. */
  lemma {:induction false} HistoryKeepsInv(alg: Algorithm, ps: seq<Params>, h: seq<Snapshot>, n: nat)
    requires ValidTaskSet(ps) && History(alg, ps, h) && n < |h|
    ensures h[n].now == n && AllInv(alg, ps, h[n])
  {
    if n == 0 {
      forall i | 0 <= i < |ps|
        ensures TaskInv(alg, ps[i], 0, NewTask(alg, ps[i]))
      {
        NewTaskInv(alg, ps[i]);
      }
    } else {
      HistoryKeepsInv(alg, ps, h, n - 1);
      TickKeepsAllInv(alg, ps, h[n - 1], h[n]);
    }
  }

  lemma TickKeepsAllInv(alg: Algorithm, ps: seq<Params>, v: Snapshot, v': Snapshot)
    requires ValidTaskSet(ps) && AllInv(alg, ps, v) && Ticked(alg, v, v') && Picked(v')
    ensures AllInv(alg, ps, v')
  {
    forall i | 0 <= i < |ps|
      ensures TaskInv(alg, ps[i], v'.now, v'.tasks[i])
    {
      TickKeepsTaskInv(alg, ps[i], v.now, v.tasks[i], i == v.running);
    }
  }

  // ----- the earliest deadline runs

  /** If some job that must be done has its deadline by d, then the running job is one. */
  lemma RunningCounts(alg: Algorithm, ps: seq<Params>, v: Snapshot, d: nat, i: int)
    requires ValidTaskSet(ps) && AllInv(alg, ps, v) && KeysFit(alg, ps, v.now)
    requires 0 <= i < |ps| && Pending(alg, ps[i], v.now, d, v.tasks[i]) > 0
    ensures v.running != NOBODY && Pending(alg, ps[v.running], v.now, d, v.tasks[v.running]) > 0
  {
    var r := v.running;
    assert TaskInv(alg, ps[i], v.now, v.tasks[i]) && TaskInv(alg, ps[r], v.now, v.tasks[r]);
    assert alg == BWP ==> v.now + ps[i].period < BIT30 && v.now + ps[r].period < BIT30;
    KeyOrder(alg, v.tasks[i].tcb, v.tasks[r].tcb, v.now);
  }

  /** Keys order jobs by deadline, red ones before blue ones. */
  lemma KeyOrder(alg: Algorithm, t: Tcb, t': Tcb, now: nat)
    requires t.period > 0 && t'.period > 0
    requires alg == BWP ==> t.ReleaseDeadline(now) < BIT30 && t'.ReleaseDeadline(now) < BIT30
    ensures ReadyKey(alg, t', now) <= ReadyKey(alg, t, now) <==>
            if alg != BWP || t.Red() == t'.Red() then t'.ReleaseDeadline(now) <= t.ReleaseDeadline(now) else t'.Red()
  {
  }

  /** In a state whose work fits, no job that must be done is killed by the next tick. */
  lemma NoneTooLate(alg: Algorithm, ps: seq<Params>, v: Snapshot, i: int)
    requires ValidTaskSet(ps) && AllInv(alg, ps, v) && KeysFit(alg, ps, v.now) && WorkFits(alg, ps, v)
    requires 0 <= i < |ps|
    ensures KilledIsBlue(alg, v, i)
  {
    assert ps[i] in ps && ps[i].Valid();
    var ts := v.tasks[i];
    assert TaskInv(alg, ps[i], v.now, ts);
    if ts.ready && Must(alg, ts.tcb) && i != v.running {
      var d := Deadline(v.now, ps[i].period);
      RunningCounts(alg, ps, v, d, i);
      var w := Works(alg, ps, v, d);
      SumOfTwo(w, i, v.running);
      WorkPending(alg, ps[i], v.now, d, ts);
      WorkPending(alg, ps[v.running], v.now, d, v.tasks[v.running]);
      assert Sum(w) <= d - v.now;
    }
  }

  lemma WorkPending(alg: Algorithm, p: Params, t: nat, d: nat, ts: TaskState)
    requires p.Valid()
    ensures Work(alg, p, t, d, ts) >= Pending(alg, p, t, d, ts)
  {
  }

  /** The tick after `v` kills task i, if at all, only while its job may be missed. */
  ghost predicate KilledIsBlue(alg: Algorithm, v: Snapshot, i: int)
    requires 0 <= i < |v.tasks|
  {
    var c := ChargeTask(v.now + 1, v.tasks[i], i == v.running);
    Killed(v.now + 1, c) ==> !Must(alg, c.tcb)
  }

  /** One tick keeps the work within every horizon: either the running job counts, or only future jobs count. */
  lemma TickKeepsWork(alg: Algorithm, ps: seq<Params>, v: Snapshot, v': Snapshot, d: nat)
    requires ValidTaskSet(ps) && AllInv(alg, ps, v) && KeysFit(alg, ps, v.now) && WorkFits(alg, ps, v)
    requires DemandFits(alg, ps) && Ticked(alg, v, v') && v'.now <= d
    ensures Sum(Works(alg, ps, v', d)) <= d - v'.now
  {
    hide TaskInv, TickTask, Work, Pending;
    var w, w' := Works(alg, ps, v, d), Works(alg, ps, v', d);
    forall i | 0 <= i < |ps|
      ensures w'[i] <= w[i] - if i == v.running && Pending(alg, ps[i], v.now, d, v.tasks[i]) > 0 then 1 else 0
    {
      assert TaskInv(alg, ps[i], v.now, v.tasks[i]);
      NoneTooLate(alg, ps, v, i);
      TickWork(alg, ps[i], v.now, d, v.tasks[i], i == v.running);
    }
    if i :| 0 <= i < |ps| && Pending(alg, ps[i], v.now, d, v.tasks[i]) > 0 {
      RunningCounts(alg, ps, v, d, i);
      SumShift(w', w, v.running, -1);
      assert Sum(w) <= d - v.now;
    } else {
      var len := d - v.now - 1;
      forall i | 0 <= i < |ps|
        ensures w'[i] <= Demands(alg, ps, len)[i]
      {
        FutureWorkBound(alg, ps[i], v.now, d, v.tasks[i]);
      }
      SumMonotone(w', Demands(alg, ps, len));
      assert TotalDemand(alg, ps, len) <= len;
    }
  }

  lemma StartWork(alg: Algorithm, ps: seq<Params>, v: Snapshot, d: nat)
    requires ValidTaskSet(ps) && DemandFits(alg, ps) && Started(alg, ps, v)
    ensures Sum(Works(alg, ps, v, d)) <= d
  {
    var w := Works(alg, ps, v, d);
    forall i | 0 <= i < |ps|
      ensures w[i] <= Demands(alg, ps, d)[i]
    {
      NewTaskWork(alg, ps[i], d);
    }
    SumMonotone(w, Demands(alg, ps, d));
    assert TotalDemand(alg, ps, d) <= d;
  }

  lemma {:induction false} HistoryKeepsWork(alg: Algorithm, ps: seq<Params>, h: seq<Snapshot>, n: nat)
    requires ValidTaskSet(ps) && History(alg, ps, h) && n < |h| && DemandFits(alg, ps) && KeysFit(alg, ps, n)
    ensures h[n].now == n && AllInv(alg, ps, h[n]) && WorkFits(alg, ps, h[n])
  {
    hide AllInv, DemandFits, Ticked, Picked, Works, ValidTaskSet;
    HistoryKeepsInv(alg, ps, h, n);
    if n > 0 {
      HistoryKeepsWork(alg, ps, h, n - 1);
    }
    forall d: nat | n <= d
      ensures Sum(Works(alg, ps, h[n], d)) <= d - n
    {
      if n == 0 {
        StartWork(alg, ps, h[0], d);
      } else {
        TickKeepsWork(alg, ps, h[n - 1], h[n], d);
      }
    }
  }

  // ----- main results

  ghost predicate NothingKilled(v: Snapshot) {
    forall i {:trigger v.tasks[i]} :: 0 <= i < |v.tasks| ==> v.tasks[i].tcb.kills == 0
  }

  /** If the demand fits, no run of any length breaks a weakly-hard constraint. Under EDF and RTO no job is killed at
      all; under BWP a kill never hits a red job, since that alone sets `broken`. */
  lemma DemandFitsNeverBroken(alg: Algorithm, ps: seq<Params>, n: nat)
    requires ValidTaskSet(ps) && DemandFits(alg, ps) && KeysFit(alg, ps, n)
    ensures !Run(alg, ps, n).broken
    ensures alg != BWP ==> NothingKilled(Snap(Run(alg, ps, n)))
  {
    var h := RunHasHistory(alg, ps, n);
    HistoryUnbroken(alg, ps, h, n);
  }

  lemma {:induction false} HistoryUnbroken(alg: Algorithm, ps: seq<Params>, h: seq<Snapshot>, n: nat)
    requires ValidTaskSet(ps) && History(alg, ps, h) && n < |h| && DemandFits(alg, ps) && KeysFit(alg, ps, n)
    ensures !h[n].broken
    ensures alg != BWP ==> NothingKilled(h[n])
  {
    hide DemandFits, WorkFits, TaskInv;
    if n > 0 {
      HistoryUnbroken(alg, ps, h, n - 1);
      HistoryKeepsWork(alg, ps, h, n - 1);
      TickKillsNothing(alg, ps, h[n - 1], h[n]);
    }
  }

  lemma TickKillsNothing(alg: Algorithm, ps: seq<Params>, v: Snapshot, v': Snapshot)
    requires ValidTaskSet(ps) && AllInv(alg, ps, v) && KeysFit(alg, ps, v.now) && WorkFits(alg, ps, v)
    requires Ticked(alg, v, v')
    ensures v'.broken == v.broken
    ensures alg != BWP && NothingKilled(v) ==> NothingKilled(v')
  {
    forall i | 0 <= i < |ps|
      ensures !KillsRed(v'.now, v.tasks[i], i == v.running)
      ensures alg != BWP ==> v'.tasks[i].tcb.kills == v.tasks[i].tcb.kills
    {
      assert TaskInv(alg, ps[i], v.now, v.tasks[i]);
      NoneTooLate(alg, ps, v, i);
    }
  }
}
