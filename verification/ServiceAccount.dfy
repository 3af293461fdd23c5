/** What each job gets and what becomes of it, in every history, schedulable or not: service is counted by who was running,
    and it decides which jobs are reported, which are killed and when. */
module ServiceAccount {
  import opened Arithmetic
  import opened WeaklyHard
  import opened Periodic
  import opened PeriodicTasks
  import opened Demand
  import opened TaskInvariants
  import opened Schedulability
  import opened ReportMonitor

  /** The ticks from `from` on and before `to` in which task i was running */
  ghost function Served(h: seq<Snapshot>, i: int, from: nat, to: nat): (s: nat)
    decreases to
  {
    if to <= from then 0 else Served(h, i, from, to - 1) + if to <= |h| && h[to - 1].running == i then 1 else 0
  }

  /** The job in progress at instant n, or the one whose period it is, and where that period begins */
  function Job(p: Params, n: nat): nat
    requires p.Valid()
  {
    n / p.period
  }

  function Begin(p: Params, k: nat): nat { k * p.period }

  // ----- one tick of one task, given the service its job has had

  /** A ready job has had `s` ticks and lacks the rest; any other has been reported exactly if it has had them all. */
  predicate Counted(p: Params, k: nat, ts: TaskState, s: nat) {
    && (forall j <- ts.tcb.hits :: j <= k)
    && if ts.ready then k !in ts.tcb.hits && ts.tcb.remaining + s == p.duration && s < p.duration
       else s <= p.duration && (k in ts.tcb.hits <==> s == p.duration)
  }

  /** The job can no longer get, before its period ends, what it lacks. */
  predicate Hopeless(p: Params, k: nat, now: nat, s: nat) {
    p.duration - s > Begin(p, k + 1) - now
  }

  lemma JobBegins(p: Params, t: nat)
    requires p.Valid()
    ensures t - t % p.period == Begin(p, Job(p, t)) && Begin(p, Job(p, t)) / p.period == Job(p, t)
    ensures Begin(p, Job(p, t) + 1) == Begin(p, Job(p, t)) + p.period
  {
    DivModUnique(Begin(p, Job(p, t)), p.period, Job(p, t), 0);
    Spread(Job(p, t), 1, p.period);
  }

  lemma SettleCounts(alg: Algorithm, p: Params, t: nat, ts: TaskState, running: bool, s: nat)
    requires p.Valid() && TaskInv(alg, p, t, ts) && (running ==> ts.ready) && Counted(p, Job(p, t), ts, s)
    ensures var k, c, s' := Job(p, t), Settle(t, ts, running), s + if running then 1 else 0;
            && Counted(p, k, c, s')
            && c.tcb.hits == ts.tcb.hits + (if ts.ready && s' == p.duration then {k} else {})
            && c.tcb.kills == ts.tcb.kills + (if ts.ready && s' < p.duration && Hopeless(p, k, t + 1, s') then 1 else 0)
            && (c.ready <==> ts.ready && s' < p.duration && !Hopeless(p, k, t + 1, s'))
  {
    hide ReadyKey;
    JobBegins(p, t);
    hide Begin, Job;
  }

  lemma WakeCounts(alg: Algorithm, p: Params, t: nat, c: TaskState, s: nat)
    requires p.Valid() && Counted(p, Job(p, t), c, s) && ((t + 1) % p.period == 0 ==> !c.ready)
    requires c.tcb.period == p.period && c.tcb.duration == p.duration && c.tcb.constraint == p.constraint
    ensures var r, k := WakeTask(alg, t + 1, c), Job(p, t + 1);
            && r.tcb.hits == c.tcb.hits && r.tcb.kills == c.tcb.kills
            && if (t + 1) % p.period == 0 then
                 k == Job(p, t) + 1 && Begin(p, k) == t + 1 && Counted(p, k, r, 0)
                 && (r.ready <==> alg != RTO || c.tcb.Red())
               else k == Job(p, t) && Counted(p, k, r, s) && r.ready == c.ready
  {
    hide ReadyKey;
    DivStep(t, p.period);
  }

  // ----- histories

  /** The ticks that task i was running in the period of job j */
  ghost function JobServed(p: Params, h: seq<Snapshot>, i: int, j: nat): nat {
    Served(h, i, Begin(p, j), Begin(p, j + 1))
  }

  ghost predicate Accounted(p: Params, h: seq<Snapshot>, i: int, n: nat)
    requires p.Valid() && n < |h| && 0 <= i < |h[n].tasks|
  {
    var k := Job(p, n);
    && Counted(p, k, h[n].tasks[i], Served(h, i, Begin(p, k), n))
    && forall j: nat :: j < k ==> (j in h[n].tasks[i].tcb.hits <==> JobServed(p, h, i, j) == p.duration)
  }

  lemma NewTaskCounts(alg: Algorithm, p: Params)
    requires p.Valid()
    ensures Job(p, 0) == 0 && Counted(p, 0, NewTask(alg, p), 0)
  {
    hide ReadyKey;
    ZeroDiv(p.period);
  }

  lemma {:induction false} HistoryAccounted(alg: Algorithm, ps: seq<Params>, h: seq<Snapshot>, i: nat, n: nat)
    requires ValidTaskSet(ps) && History(alg, ps, h) && n < |h| && i < |ps|
    ensures ps[i].Valid() && h[n].now == n && |h[n].tasks| == |ps| && AllInv(alg, ps, h[n]) && Accounted(ps[i], h, i, n)
  {
    hide TaskInv, Counted, Served;
    assert ps[i] in ps;
    HistoryKeepsInv(alg, ps, h, n);
    if n == 0 {
      NewTaskCounts(alg, ps[i]);
      NothingYet(h, i, Begin(ps[i], 0));
    } else {
      HistoryAccounted(alg, ps, h, i, n - 1);
      HistoryKeepsInv(alg, ps, h, n - 1);
      TickAccounted(alg, ps, h, i, n - 1);
    }
  }

  lemma NothingYet(h: seq<Snapshot>, i: int, from: nat)
    ensures Served(h, i, from, 0) == 0 && Served(h, i, from, from) == 0
  {
  }

  lemma OneTickMore(h: seq<Snapshot>, i: int, from: nat, t: nat)
    requires from <= t < |h|
    ensures Served(h, i, from, t + 1) == Served(h, i, from, t) + if h[t].running == i then 1 else 0
  {
  }

  /** The task between the killing and the releases of the tick after n */
  ghost function Settled(h: seq<Snapshot>, i: nat, n: nat): TaskState
    requires n < |h| && i < |h[n].tasks|
  {
    Settle(n, h[n].tasks[i], h[n].running == i)
  }

  /** What the tick after n makes of a task whose job has had s ticks by then; c is the task before jobs are released. */
  ghost predicate Outcome(alg: Algorithm, p: Params, n: nat, ts: TaskState, c: TaskState, r: TaskState, s: nat)
    requires p.Valid()
  {
    var k := Job(p, n);
    && Counted(p, k, c, s)
    && r.tcb.hits == c.tcb.hits == ts.tcb.hits + (if ts.ready && s == p.duration then {k} else {})
    && r.tcb.kills == ts.tcb.kills + (if ts.ready && s < p.duration && Hopeless(p, k, n + 1, s) then 1 else 0)
    && (c.ready <==> ts.ready && s < p.duration && !Hopeless(p, k, n + 1, s))
    && if (n + 1) % p.period == 0 then
         !c.ready && Job(p, n + 1) == k + 1 && Begin(p, k + 1) == n + 1 && Counted(p, k + 1, r, 0)
         && (r.ready <==> alg != RTO || c.tcb.Red())
       else Job(p, n + 1) == k && Counted(p, k, r, s) && r.ready == c.ready
  }

  lemma TaskTick(alg: Algorithm, p: Params, n: nat, ts: TaskState, running: bool, s: nat)
    requires p.Valid() && TaskInv(alg, p, n, ts) && (running ==> ts.ready) && Counted(p, Job(p, n), ts, s)
    ensures Outcome(alg, p, n, ts, Settle(n, ts, running), TickTask(alg, n + 1, ts, running),
                    s + if running then 1 else 0)
  {
    hide Counted, Hopeless, Settle, WakeTask, TaskInv, Begin, Job;
    TickIsSettleAndWake(alg, n, ts, running);
    TickKeepsTaskInv(alg, p, n, ts, running);
    SettleKeepsParameters(alg, p, n, ts, running);
    SettleCounts(alg, p, n, ts, running, s);
    WakeCounts(alg, p, n, Settle(n, ts, running), s + if running then 1 else 0);
  }

  lemma SettleKeepsParameters(alg: Algorithm, p: Params, t: nat, ts: TaskState, running: bool)
    requires p.Valid() && TaskInv(alg, p, t, ts)
    ensures var c := Settle(t, ts, running);
            c.tcb.period == p.period && c.tcb.duration == p.duration && c.tcb.constraint == p.constraint
  {
    hide ReadyKey;
  }

  lemma TickIsSettleAndWake(alg: Algorithm, t: nat, ts: TaskState, running: bool)
    ensures TickTask(alg, t + 1, ts, running) == WakeTask(alg, t + 1, Settle(t, ts, running))
  {
  }

  lemma TickCounts(alg: Algorithm, ps: seq<Params>, h: seq<Snapshot>, i: nat, n: nat)
    requires ValidTaskSet(ps) && History(alg, ps, h) && n + 1 < |h| && i < |ps| && |h[n + 1].tasks| == |ps|
    requires h[n].now == n && AllInv(alg, ps, h[n]) && ps[i].Valid() && Accounted(ps[i], h, i, n)
    ensures Outcome(alg, ps[i], n, h[n].tasks[i], Settled(h, i, n), h[n + 1].tasks[i],
                    Served(h, i, Begin(ps[i], Job(ps[i], n)), n + 1))
  {
    hide Counted, Served, Outcome, Settle, TickTask, TaskInv;
    var p, ts, running := ps[i], h[n].tasks[i], h[n].running == i;
    assert TaskInv(alg, p, n, ts) && (running ==> ts.ready);
    JobBegins(p, n);
    OneTickMore(h, i, Begin(p, Job(p, n)), n);
    TaskTick(alg, p, n, ts, running, Served(h, i, Begin(p, Job(p, n)), n));
    assert Ticked(alg, h[n], h[n + 1]);
  }

  lemma TickAccounted(alg: Algorithm, ps: seq<Params>, h: seq<Snapshot>, i: nat, n: nat)
    requires ValidTaskSet(ps) && History(alg, ps, h) && n + 1 < |h| && i < |ps| && |h[n + 1].tasks| == |ps|
    requires h[n].now == n && |h[n].tasks| == |ps| && AllInv(alg, ps, h[n]) && ps[i].Valid()
    requires Accounted(ps[i], h, i, n)
    ensures Accounted(ps[i], h, i, n + 1)
  {
    hide AllInv, History, Served, Counted, Hopeless, Settled, Begin, Job;
    TickCounts(alg, ps, h, i, n);
    var p, k := ps[i], Job(ps[i], n);
    HitOrNot(p, k, Settled(h, i, n), Served(h, i, Begin(p, k), n + 1));
    NothingYet(h, i, n + 1);
    var hits, before := h[n + 1].tasks[i].tcb.hits, h[n].tasks[i].tcb.hits;
    assert forall j: nat :: j < k ==> (j in hits <==> j in before);
  }

  lemma HitOrNot(p: Params, k: nat, ts: TaskState, s: nat)
    requires Counted(p, k, ts, s)
    ensures !ts.ready ==> (k in ts.tcb.hits <==> s == p.duration)
  {
  }

  // ----- main results

  function Earlier(a: nat, b: nat): nat { if a < b then a else b }

  /**
   * Service. In every history, schedulable or not: what a ready job still lacks is its duration less the ticks its task has
   * been running since the job was released; and a job is reported as finished in time exactly if the ticks of its period
   * in which its task was running reach the duration.
   */
  lemma ServiceDecidesReport(alg: Algorithm, ps: seq<Params>, h: seq<Snapshot>, i: nat, n: nat)
    requires ValidTaskSet(ps) && History(alg, ps, h) && n < |h| && i < |ps|
    ensures |h[n].tasks| == |ps| && ps[i].Valid()
    ensures var p, ts := ps[i], h[n].tasks[i];
            && (ts.ready ==> ts.tcb.start == n - n % p.period && p.duration - ts.tcb.remaining == Served(h, i, ts.tcb.start, n))
            && forall j: nat :: Begin(p, j) <= n ==>
                 (j in ts.tcb.hits <==> Served(h, i, Begin(p, j), Earlier(Begin(p, j + 1), n)) == p.duration)
  {
    hide TaskInv, AllInv, History, Served, Begin, Job, Counted;
    HistoryAccounted(alg, ps, h, i, n);
    var p, ts := ps[i], h[n].tasks[i];
    CountedMeans(alg, ps, h, i, n);
    forall j: nat | Begin(p, j) <= n
      ensures j in ts.tcb.hits <==> Served(h, i, Begin(p, j), Earlier(Begin(p, j + 1), n)) == p.duration
    {
      WhichJob(p, j, n);
    }
  }

  lemma CountedMeans(alg: Algorithm, ps: seq<Params>, h: seq<Snapshot>, i: nat, n: nat)
    requires ValidTaskSet(ps) && n < |h| && i < |ps| && h[n].now == n && AllInv(alg, ps, h[n]) && ps[i].Valid()
    requires Accounted(ps[i], h, i, n)
    ensures var p, ts := ps[i], h[n].tasks[i];
            var s := Served(h, i, Begin(p, Job(p, n)), n);
            && (Job(p, n) in ts.tcb.hits <==> s == p.duration)
            && (ts.ready ==>
                  ts.tcb.start == n - n % p.period == Begin(p, Job(p, n)) && p.duration - ts.tcb.remaining == s)
  {
    hide Served, Begin, Job;
    assert TaskInv(alg, ps[i], n, h[n].tasks[i]);
    JobBegins(ps[i], n);
  }

  lemma WhichJob(p: Params, j: nat, n: nat)
    requires p.Valid() && Begin(p, j) <= n
    ensures j <= Job(p, n) && (j < Job(p, n) ==> Begin(p, j + 1) <= n) && (j == Job(p, n) ==> n < Begin(p, j + 1))
  {
    var k := Job(p, n);
    JobBegins(p, n);
    if j > k {
      MulMono(k + 1, j, p.period);
    } else if j < k {
      MulMono(j + 1, k, p.period);
    }
  }

  /**
   * The fate of a job in the tick after n, by the ticks s that its task has been running in this period: it is reported if
   * they reach the duration, killed if what is lacking no longer fits before the period ends, and otherwise goes on. A new
   * job is released at the beginning of every period, except that RTO skips one that may be missed by the count of jobs
   * met in a row just before it.
   */
  lemma FateOfJobs(alg: Algorithm, ps: seq<Params>, h: seq<Snapshot>, i: nat, n: nat)
    requires ValidTaskSet(ps) && History(alg, ps, h) && n + 1 < |h| && i < |ps|
    ensures |h[n].tasks| == |h[n + 1].tasks| == |ps| && ps[i].Valid()
    ensures var p, ts, r := ps[i], h[n].tasks[i], h[n + 1].tasks[i];
            var k := Job(p, n);
            var s := Served(h, i, Begin(p, k), n + 1);
            && r.tcb.hits == ts.tcb.hits + (if ts.ready && s == p.duration then {k} else {})
            && r.tcb.kills == ts.tcb.kills + (if ts.ready && s < p.duration && Hopeless(p, k, n + 1, s) then 1 else 0)
            && (r.ready <==> if (n + 1) % p.period == 0
                             then alg != RTO || MissBreaks(p.constraint, RunBefore(r.tcb.hits, k + 1) % BYTE)
                             else ts.ready && s < p.duration && !Hopeless(p, k, n + 1, s))
  {
    hide TaskInv, AllInv, History, Served, Counted, Hopeless, Begin, Job, RunBefore, Monitored, Settle;
    HistoryAccounted(alg, ps, h, i, n);
    HistoryAccounted(alg, ps, h, i, n + 1);
    TickCounts(alg, ps, h, i, n);
    RedByReport(alg, ps, h, i, n);
  }

  /** When a period ends, whether the next job may be missed is decided by the report. */
  lemma RedByReport(alg: Algorithm, ps: seq<Params>, h: seq<Snapshot>, i: nat, n: nat)
    requires ValidTaskSet(ps) && History(alg, ps, h) && n < |h| && i < |ps| && ps[i].Valid()
    requires h[n].now == n && |h[n].tasks| == |ps| && AllInv(alg, ps, h[n])
    ensures var c := Settled(h, i, n);
            !c.ready ==> (c.tcb.Red() <==> MissBreaks(ps[i].constraint, RunBefore(c.tcb.hits, Job(ps[i], n) + 1) % BYTE))
  {
    hide History, Settle, TaskInv, Monitored, SomeFlagged, RunBefore, MissBreaks, Job;
    HistoryMonitored(alg, ps, h, n);
    assert TaskInv(alg, ps[i], n, h[n].tasks[i]) && Monitored(ps[i], n, h[n].tasks[i]);
    RedTask(alg, ps[i], n, h[n].tasks[i], h[n].running == i);
  }

  lemma RedTask(alg: Algorithm, p: Params, n: nat, ts: TaskState, running: bool)
    requires p.Valid() && TaskInv(alg, p, n, ts) && Monitored(p, n, ts) && (running ==> ts.ready)
    ensures var c := Settle(n, ts, running);
            !c.ready ==> (c.tcb.Red() <==> MissBreaks(p.constraint, RunBefore(c.tcb.hits, Job(p, n) + 1) % BYTE))
  {
    hide TaskInv, RunBefore, Monitored, FlaggedTask, MissBreaks, ChargeTask, KillTask;
    SettleKeepsParameters(alg, p, n, ts, running);
    ChargeMonitored(alg, p, n, ts, running);
    KillMonitored(p, n, ChargeTask(n + 1, ts, running));
    if !Settle(n, ts, running).ready {
      RedByCounter(p, n, Settle(n, ts, running));
    }
  }

  lemma RedByCounter(p: Params, n: nat, c: TaskState)
    requires p.Valid() && Monitored(p, n, c) && !c.ready && c.tcb.constraint == p.constraint
    ensures c.tcb.Red() <==> MissBreaks(p.constraint, RunBefore(c.tcb.hits, Job(p, n) + 1) % BYTE)
  {
    hide RunBefore;
  }

  /** At instant 0 every task gets its first job, except that RTO skips those that may be missed. */
  lemma FirstJobs(alg: Algorithm, ps: seq<Params>, h: seq<Snapshot>, i: nat)
    requires ValidTaskSet(ps) && History(alg, ps, h) && i < |ps|
    ensures |h[0].tasks| == |ps| && ps[i].Valid()
    ensures var p, ts := ps[i], h[0].tasks[i];
            && (ts.ready <==> alg != RTO || MissBreaks(p.constraint, 0))
            && ts.tcb.hits == {} && ts.tcb.kills == 0 && (ts.ready ==> ts.tcb.remaining == p.duration)
  {
    HistoryAccounted(alg, ps, h, i, 0);
    FirstTask(alg, ps, h, i);
    hide History, AllInv, TaskInv, ReadyKey;
  }

  // ----- every job is accounted for

  /** The jobs up to instant n that were skipped at their release */
  ghost function Skips(p: Params, h: seq<Snapshot>, i: nat, n: nat): nat
    requires p.Valid()
    decreases n
  {
    (if n > 0 then Skips(p, h, i, n - 1) else 0)
    + if n < |h| && i < |h[n].tasks| && n % p.period == 0 && !h[n].tasks[i].ready then 1 else 0
  }

  /**
   * In every history the jobs that a task has done with are those reported, those killed and those skipped, each counted
   * once; only RTO skips any.
   */
  lemma {:induction false} EveryJobIsDecidedOnce(alg: Algorithm, ps: seq<Params>, h: seq<Snapshot>, i: nat, n: nat)
    requires ValidTaskSet(ps) && History(alg, ps, h) && n < |h| && i < |ps|
    ensures |h[n].tasks| == |ps| && ps[i].Valid()
    ensures var p, ts := ps[i], h[n].tasks[i];
            && |ts.tcb.hits| + ts.tcb.kills + Skips(p, h, i, n) == Decided(p, n, ts)
            && (alg != RTO ==> Skips(p, h, i, n) == 0)
  {
    hide TaskInv, AllInv, History, Served, Hopeless, Begin, Job, Outcome, Decided, Counted, Settled;
    HistoryAccounted(alg, ps, h, i, n);
    var p := ps[i];
    if n == 0 {
      NewTaskDecided(alg, p);
      FirstTask(alg, ps, h, i);
    } else {
      EveryJobIsDecidedOnce(alg, ps, h, i, n - 1);
      HistoryAccounted(alg, ps, h, i, n - 1);
      TickCounts(alg, ps, h, i, n - 1);
      var s := Served(h, i, Begin(p, Job(p, n - 1)), n);
      DecidedByTick(alg, p, n - 1, h[n - 1].tasks[i], Settled(h, i, n - 1), h[n].tasks[i], s,
                    Served(h, i, Begin(p, Job(p, n - 1)), n - 1));
    }
  }

  lemma FirstTask(alg: Algorithm, ps: seq<Params>, h: seq<Snapshot>, i: nat)
    requires ValidTaskSet(ps) && History(alg, ps, h) && i < |ps| && |h[0].tasks| == |ps|
    ensures ps[i].Valid() && h[0].tasks[i] == NewTask(alg, ps[i])
  {
    hide NewTask;
    assert ps[i] in ps;
  }

  lemma DecidedByTick(alg: Algorithm, p: Params, n: nat, ts: TaskState, c: TaskState, r: TaskState, s: nat, s0: nat)
    requires p.Valid() && Outcome(alg, p, n, ts, c, r, s) && Counted(p, Job(p, n), ts, s0)
    ensures |r.tcb.hits| + r.tcb.kills - Decided(p, n + 1, r) + (if (n + 1) % p.period == 0 && !r.ready then 1 else 0)
         == |ts.tcb.hits| + ts.tcb.kills - Decided(p, n, ts)
    ensures alg != RTO && (n + 1) % p.period == 0 ==> r.ready
  {
    hide Hopeless, Begin;
  }

  lemma NewTaskDecided(alg: Algorithm, p: Params)
    requires p.Valid()
    ensures var ts := NewTask(alg, p);
            && ts.tcb.hits == {} && ts.tcb.kills == 0 && Decided(p, 0, ts) == (if ts.ready then 0 else 1)
            && 0 % p.period == 0 && (alg != RTO ==> ts.ready)
  {
    hide ReadyKey;
    ZeroDiv(p.period);
  }
}
