/** The flag `uxWeaklyHardBroken` of a run agrees with the report of met deadlines, schedulable or not. */
module ReportMonitor {
  import opened Arithmetic
  import opened WeaklyHard
  import opened Periodic
  import opened PeriodicTasks
  import opened Demand
  import opened TaskInvariants
  import opened SkipPattern
  import opened Schedulability

  /** How many jobs of the task have been decided: met, killed or skipped. */
  function Decided(p: Params, t: nat, ts: TaskState): nat
    requires p.Valid()
  {
    if ts.ready then t / p.period else t / p.period + 1
  }

  /** Only decided jobs are in the report, and the counter is the length of its last run, modulo 256. */
  ghost predicate Monitored(p: Params, t: nat, ts: TaskState)
    requires p.Valid()
  {
    && (forall j <- ts.tcb.hits :: j < Decided(p, t, ts))
    && (p.constraint > 0 ==> ts.tcb.met == RunBefore(ts.tcb.hits, Decided(p, t, ts)) % BYTE)
  }

  /** The report of the task, up to the decided jobs, holds a miss that the counter finds too early. */
  ghost predicate FlaggedTask(p: Params, t: nat, ts: TaskState)
    requires p.Valid()
  {
    Flagged(p.constraint, ts.tcb.hits, Decided(p, t, ts))
  }

  lemma RunStep(hits: set<nat>, hits': set<nat>, k: nat)
    requires forall j :: 0 <= j < k ==> (j in hits <==> j in hits')
    ensures RunBefore(hits', k + 1) == if k in hits' then RunBefore(hits, k) + 1 else 0
  {
    RunBeforeDependsOnPast(hits, hits', k);
  }

  /** One more job: a met deadline flags nothing, a miss is flagged if it breaks. */
  lemma OneMoreJob(w: nat, hits: set<nat>, hits': set<nat>, k: nat)
    requires forall j :: 0 <= j < k ==> (j in hits <==> j in hits')
    ensures Flagged(w, hits', k + 1) <==>
            Flagged(w, hits, k) || (k !in hits' && MissBreaks(w, RunBefore(hits, k) % BYTE))
    ensures RunBefore(hits', k + 1) == if k in hits' then RunBefore(hits, k) + 1 else 0
  {
    hide RunBefore, MissBreaks;
    RunStep(hits, hits', k);
    forall j: nat | j <= k
      ensures RunBefore(hits, j) == RunBefore(hits', j)
    {
      RunBeforeDependsOnPast(hits, hits', j);
    }
    if Flagged(w, hits', k + 1) {
      var j: nat :| j < k + 1 && j !in hits' && MissBreaks(w, RunBefore(hits', j) % BYTE);
      assert j < k ==> Flagged(w, hits, k);
    }
    if Flagged(w, hits, k) {
      var j: nat :| j < k && j !in hits && MissBreaks(w, RunBefore(hits, j) % BYTE);
      assert j !in hits' && RunBefore(hits', j) == RunBefore(hits, j);
    }
  }

  lemma NewTaskMonitored(alg: Algorithm, p: Params)
    requires p.Valid()
    ensures Monitored(p, 0, NewTask(alg, p)) && !FlaggedTask(p, 0, NewTask(alg, p))
  {
    hide ReadyKey;
    ZeroDiv(p.period);
  }

  lemma ChargeMonitored(alg: Algorithm, p: Params, t: nat, ts: TaskState, running: bool)
    requires p.Valid() && TaskInv(alg, p, t, ts) && Monitored(p, t, ts) && (running ==> ts.ready)
    ensures var c := ChargeTask(t + 1, ts, running);
            && Monitored(p, t, c) && (FlaggedTask(p, t, c) <==> FlaggedTask(p, t, ts))
            && c.tcb.constraint == p.constraint
  {
    hide ReadyKey, Flagged, RunBefore, MissBreaks;
    var k := t / p.period;
    if running {
      assert ts.tcb.start == k * p.period + 0;
      DivModUnique(ts.tcb.start, p.period, k, 0);
      OneMoreJob(p.constraint, ts.tcb.hits, ts.tcb.hits + {k}, k);
      SuccessorModByte(RunBefore(ts.tcb.hits, k));
    }
  }

  lemma KillMonitored(p: Params, t: nat, c: TaskState)
    requires p.Valid() && Monitored(p, t, c) && c.tcb.constraint == p.constraint
    ensures var r := KillTask(t + 1, c);
            && Monitored(p, t, r)
            && (FlaggedTask(p, t, r) <==> FlaggedTask(p, t, c) || (Killed(t + 1, c) && c.tcb.Red()))
  {
    hide Flagged, RunBefore;
    if c.ready {
      OneMoreJob(p.constraint, c.tcb.hits, c.tcb.hits, t / p.period);
    }
  }

  lemma WakeMonitored(alg: Algorithm, p: Params, t: nat, c: TaskState)
    requires p.Valid() && Monitored(p, t, c)
    requires c.tcb.period == p.period && c.tcb.constraint == p.constraint
    requires (t + 1) % p.period == 0 ==> !c.ready
    ensures var r := WakeTask(alg, t + 1, c);
            && Monitored(p, t + 1, r)
            && (FlaggedTask(p, t + 1, r) <==> FlaggedTask(p, t, c))
  {
    hide ReadyKey, Flagged, RunBefore;
    DivStep(t, p.period);
    assert p.constraint > 0 ==>
        c.tcb.Red() == MissBreaks(p.constraint, RunBefore(c.tcb.hits, Decided(p, t, c)) % BYTE);
    OneMoreJob(p.constraint, c.tcb.hits, c.tcb.hits, t / p.period + 1);
  }

  ghost predicate AllMonitored(ps: seq<Params>, v: Snapshot)
    requires ValidTaskSet(ps) && |v.tasks| == |ps|
  {
    forall i {:trigger v.tasks[i]} :: 0 <= i < |ps| ==> Monitored(ps[i], v.now, v.tasks[i])
  }

  ghost predicate SomeFlagged(ps: seq<Params>, v: Snapshot)
    requires ValidTaskSet(ps) && |v.tasks| == |ps|
  {
    exists i {:trigger v.tasks[i]} :: 0 <= i < |ps| && FlaggedTask(ps[i], v.now, v.tasks[i])
  }

  lemma {:induction false} HistoryMonitored(alg: Algorithm, ps: seq<Params>, h: seq<Snapshot>, n: nat)
    requires ValidTaskSet(ps) && History(alg, ps, h) && n < |h|
    ensures h[n].now == n && |h[n].tasks| == |ps|
    ensures AllMonitored(ps, h[n]) && (h[n].broken <==> SomeFlagged(ps, h[n]))
  {
    hide Monitored, FlaggedTask, TaskInv;
    HistoryKeepsInv(alg, ps, h, n);
    if n == 0 {
      forall i | 0 <= i < |ps|
        ensures Monitored(ps[i], 0, h[0].tasks[i]) && !FlaggedTask(ps[i], 0, h[0].tasks[i])
      {
        NewTaskMonitored(alg, ps[i]);
      }
    } else {
      HistoryKeepsInv(alg, ps, h, n - 1);
      HistoryMonitored(alg, ps, h, n - 1);
      TickMonitored(alg, ps, h[n - 1], h[n]);
    }
  }

  lemma TickMonitored(alg: Algorithm, ps: seq<Params>, v: Snapshot, v': Snapshot)
    requires ValidTaskSet(ps) && AllInv(alg, ps, v) && AllMonitored(ps, v) && Ticked(alg, v, v')
    requires v.broken <==> SomeFlagged(ps, v)
    ensures AllMonitored(ps, v') && (v'.broken <==> SomeFlagged(ps, v'))
  {
    hide Monitored, FlaggedTask, TaskInv, KillsRed;
    forall i | 0 <= i < |ps|
      ensures Monitored(ps[i], v'.now, v'.tasks[i])
      ensures FlaggedTask(ps[i], v'.now, v'.tasks[i]) <==>
              FlaggedTask(ps[i], v.now, v.tasks[i]) || KillsRed(v'.now, v.tasks[i], i == v.running)
    {
      TickTaskMonitored(alg, ps[i], v.now, v.tasks[i], i == v.running);
    }
    if i :| 0 <= i < |ps| && FlaggedTask(ps[i], v'.now, v'.tasks[i]) {
      assert FlaggedTask(ps[i], v.now, v.tasks[i]) || KillsRed(v'.now, v.tasks[i], i == v.running);
    }
    if i :| 0 <= i < |ps| && (FlaggedTask(ps[i], v.now, v.tasks[i]) || KillsRed(v'.now, v.tasks[i], i == v.running)) {
      assert FlaggedTask(ps[i], v'.now, v'.tasks[i]);
    }
  }

  lemma TickTaskMonitored(alg: Algorithm, p: Params, t: nat, ts: TaskState, running: bool)
    requires p.Valid() && TaskInv(alg, p, t, ts) && Monitored(p, t, ts) && (running ==> ts.ready)
    ensures var r := TickTask(alg, t + 1, ts, running);
            && Monitored(p, t + 1, r)
            && (FlaggedTask(p, t + 1, r) <==> FlaggedTask(p, t, ts) || KillsRed(t + 1, ts, running))
  {
    hide Monitored, FlaggedTask;
    TickKeepsTaskInv(alg, p, t, ts, running);
    ChargeMonitored(alg, p, t, ts, running);
    KillMonitored(p, t, ChargeTask(t + 1, ts, running));
    WakeMonitored(alg, p, t, Settle(t, ts, running));
  }

  /** In every state of every run, `broken` is set exactly if the report of some task shows a miss that came too early by
      the byte counter's reckoning; and a report whose windows are broken never goes unnoticed. */
  lemma BrokenIffReportFlagged(alg: Algorithm, ps: seq<Params>, n: nat)
    requires ValidTaskSet(ps)
    ensures var v := Snap(Run(alg, ps, n));
            && (v.broken <==> SomeFlagged(ps, v))
            && (forall i :: 0 <= i < |ps| ==>
                  WindowHolds(ps[i].constraint, v.tasks[i].tcb.hits, Decided(ps[i], n, v.tasks[i])) || v.broken)
  {
    hide Run, Flagged;
    var h := RunHasHistory(alg, ps, n);
    HistoryMonitored(alg, ps, h, n);
    forall i | 0 <= i < |ps| && !WindowHolds(ps[i].constraint, h[n].tasks[i].tcb.hits, Decided(ps[i], n, h[n].tasks[i]))
      ensures h[n].broken
    {
      BrokenWindowIsFlagged(ps[i].constraint, h[n].tasks[i].tcb.hits, Decided(ps[i], n, h[n].tasks[i]));
      assert FlaggedTask(ps[i], n, h[n].tasks[i]);
    }
  }
}
