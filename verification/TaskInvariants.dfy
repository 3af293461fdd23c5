/** What every task satisfies after every tick, and how much work it can still ask for. */
module TaskInvariants {
  import opened Arithmetic
  import opened KernelList
  import opened WeaklyHard
  import opened Periodic
  import opened PeriodicTasks
  import opened Demand

  /** The period in progress at tick t starts at `t - t % period`. */
  function Deadline(t: nat, period: nat): (d: nat)
    requires period > 0
    ensures t < d <= t + period
  {
    t - t % period + period
  }

  /** After tick t and its context switch: a ready job was released at the start of the period in progress, has work
      left and can still finish in time, and carries the key of that period's deadline. */
  ghost predicate TaskInv(alg: Algorithm, p: Params, t: nat, ts: TaskState)
    requires p.Valid()
  {
    && ts.tcb.period == p.period && ts.tcb.duration == p.duration && ts.tcb.constraint == p.constraint
    && ts.tcb.met < BYTE
    && (ts.ready ==>
          && ts.tcb.start == t - t % p.period
          && 1 <= ts.tcb.remaining <= p.duration
          && t - ts.tcb.start + ts.tcb.remaining <= p.period
          && ts.tcb.key == ReadyKey(alg, ts.tcb, t)
          && (alg == RTO ==> ts.tcb.Red()))
  }

  lemma NewTaskInv(alg: Algorithm, p: Params)
    requires p.Valid()
    ensures TaskInv(alg, p, 0, NewTask(alg, p))
  {
    ZeroDiv(p.period);
    var t := NewTcb(p);
    KeyIgnoresKey(alg, t, ReadyKey(alg, t, 0), 0);
  }

  lemma KeyIgnoresKey(alg: Algorithm, t: Tcb, key: nat, now: nat)
    requires t.period > 0
    ensures ReadyKey(alg, t.(key := key), now) == ReadyKey(alg, t, now)
  {
  }

  lemma ZeroDiv(d: nat)
    requires d > 0
    ensures 0 / d == 0 && 0 % d == 0
  {
  }

  /** The charge and the killing of tick t + 1, before jobs are released. */
  function Settle(t: nat, ts: TaskState, running: bool): TaskState {
    KillTask(t + 1, ChargeTask(t + 1, ts, running))
  }

  /** Between the killing and the releases of tick t + 1: a job that is still ready can finish in a later tick of the
      period in progress. */
  ghost predicate SettledInv(alg: Algorithm, p: Params, t: nat, ts: TaskState)
    requires p.Valid()
  {
    && ts.tcb.period == p.period && ts.tcb.duration == p.duration && ts.tcb.constraint == p.constraint
    && ts.tcb.met < BYTE
    && (ts.ready ==>
          && t % p.period + 1 < p.period
          && ts.tcb.start == t - t % p.period
          && 1 <= ts.tcb.remaining <= p.duration
          && t + 1 - ts.tcb.start + ts.tcb.remaining <= p.period
          && ts.tcb.key == ReadyKey(alg, ts.tcb, t)
          && (alg == RTO ==> ts.tcb.Red()))
  }

  lemma SettleKeeps(alg: Algorithm, p: Params, t: nat, ts: TaskState, running: bool)
    requires p.Valid() && TaskInv(alg, p, t, ts) && (running ==> ts.ready)
    ensures SettledInv(alg, p, t, Settle(t, ts, running))
    ensures running ==> t + 1 - ts.tcb.start <= ts.tcb.period
  {
  }

  lemma ReleaseKeeps(alg: Algorithm, p: Params, t: nat, ts: TaskState)
    requires p.Valid() && SettledInv(alg, p, t, ts)
    ensures TaskInv(alg, p, t + 1, WakeTask(alg, t + 1, ts))
    ensures (t + 1) % p.period == 0 ==> !ts.ready
  {
    DivStep(t, p.period);
  }

  /** Every tick keeps the invariant. In particular the current job is never found finished after its period. */
  lemma TickKeepsTaskInv(alg: Algorithm, p: Params, t: nat, ts: TaskState, running: bool)
    requires p.Valid() && TaskInv(alg, p, t, ts) && (running ==> ts.ready)
    ensures TaskInv(alg, p, t + 1, TickTask(alg, t + 1, ts, running))
    ensures running ==> t + 1 - ts.tcb.start <= ts.tcb.period
    ensures (t + 1) % p.period == 0 ==> !Settle(t, ts, running).ready
  {
    SettleKeeps(alg, p, t, ts, running);
    ReleaseKeeps(alg, p, t, Settle(t, ts, running));
  }

  // ----- pending and future work

  /** The pattern constraint: EDF treats every job as one that must not be missed. */
  function Tolerance(alg: Algorithm, p: Params): nat {
    if alg == EDF then 0 else p.constraint
  }

  predicate Must(alg: Algorithm, tcb: Tcb) {
    alg == EDF || tcb.Red()
  }

  /** Red jobs to come before the next blue one, in the worst case, after the job in progress. */
  function Credit(w: nat, ts: TaskState): (c: nat)
    ensures w > 0 ==> c < w
  {
    if w == 0 then 0
    else if ts.ready then if ts.tcb.met < w - 1 then w - 2 - ts.tcb.met else w - 1
    else if ts.tcb.met < w - 1 then w - 1 - ts.tcb.met
    else 0
  }

  /** How many whole periods lie between the end of the one in progress at t and d. */
  function Releases(t: nat, d: nat, period: nat): nat
    requires period > 0
  {
    if d / period > t / period then d / period - t / period - 1 else 0
  }

  /** Work of the released job that has to be done by d. */
  function Pending(alg: Algorithm, p: Params, t: nat, d: nat, ts: TaskState): nat
    requires p.Valid()
  {
    if ts.ready && Must(alg, ts.tcb) && Deadline(t, p.period) <= d then ts.tcb.remaining else 0
  }

  /** The most work a task can still ask for by d: its released job, and the jobs released after t. */
  function Work(alg: Algorithm, p: Params, t: nat, d: nat, ts: TaskState): nat
    requires p.Valid()
  {
    var w := Tolerance(alg, p);
    Pending(alg, p, t, d, ts) + p.duration * WorstReds(w, Credit(w, ts), Releases(t, d, p.period))
  }

  /** Charging and killing never add work, and a charged job that must be done by d has one tick less left. */
  lemma SettleWork(alg: Algorithm, p: Params, t: nat, d: nat, ts: TaskState, running: bool)
    requires p.Valid() && TaskInv(alg, p, t, ts) && (running ==> ts.ready)
    requires var c := ChargeTask(t + 1, ts, running); Killed(t + 1, c) ==> !Must(alg, c.tcb)
    ensures Work(alg, p, t, d, Settle(t, ts, running))
         <= Work(alg, p, t, d, ts) - if running && Pending(alg, p, t, d, ts) > 0 then 1 else 0
  {
    var w := Tolerance(alg, p);
    var m := Releases(t, d, p.period);
    var after := Settle(t, ts, running);
    assert w > 0 ==> Credit(w, after) <= Credit(w, ts);
    WorstRedsMonotone(w, Credit(w, after), Credit(w, ts), m, m);
    MulMono(WorstReds(w, Credit(w, after), m), WorstReds(w, Credit(w, ts), m), p.duration);
  }

  /** Releasing a job turns future work into pending work. */
  lemma ReleaseWork(alg: Algorithm, p: Params, t: nat, d: nat, ts: TaskState)
    requires p.Valid() && t + 1 <= d
    requires ts.tcb.period == p.period && ts.tcb.duration == p.duration && ts.tcb.constraint == p.constraint
    requires (t + 1) % p.period == 0 ==> !ts.ready
    ensures Work(alg, p, t + 1, d, WakeTask(alg, t + 1, ts)) <= Work(alg, p, t, d, ts)
  {
    hide ReadyKey;
    DivStep(t, p.period);
    if (t + 1) % p.period == 0 {
      var w := Tolerance(alg, p);
      var m := Releases(t, d, p.period);
      DeadlineCounts(t, d, p.period);
      if m > 0 {
        var e := Credit(w, ts);
        assert w > 0 && e > 0 ==> WorstReds(w, e, m) == 1 + WorstReds(w, e - 1, m - 1);
        DistributeOne(p.duration, WorstReds(w, if w > 0 && e > 0 then e - 1 else 0, m - 1));
      }
    }
  }

  /** At the end of a period, the next deadline is within d exactly if a whole period remains. */
  lemma DeadlineCounts(t: nat, d: nat, period: nat)
    requires period > 0 && (t + 1) % period == 0 && t + 1 <= d
    ensures Deadline(t + 1, period) == t + 1 + period
    ensures Deadline(t + 1, period) <= d <==> Releases(t, d, period) > 0
    ensures Releases(t + 1, d, period) == if Releases(t, d, period) > 0 then Releases(t, d, period) - 1 else 0
  {
    DivStep(t, period);
    var k := (t + 1) / period;
    assert t + 1 == k * period;
    if d >= (k + 1) * period {
      DivAtLeast(d, period, k + 1);
    } else {
      DivModUnique(d, period, k, d - k * period);
    }
    assert (k + 1) * period == t + 1 + period;
  }

  lemma DivAtLeast(d: nat, period: nat, k: nat)
    requires period > 0 && d >= k * period
    ensures d / period >= k
  {
    if d / period < k {
      MulMono(d / period + 1, k, period);
    }
  }

  /** A tick never adds work to any horizon, and charges the running job if it counts. */
  lemma TickWork(alg: Algorithm, p: Params, t: nat, d: nat, ts: TaskState, running: bool)
    requires p.Valid() && TaskInv(alg, p, t, ts) && (running ==> ts.ready) && t + 1 <= d
    requires var c := ChargeTask(t + 1, ts, running); Killed(t + 1, c) ==> !Must(alg, c.tcb)
    ensures Work(alg, p, t + 1, d, TickTask(alg, t + 1, ts, running))
         <= Work(alg, p, t, d, ts) - if running && Pending(alg, p, t, d, ts) > 0 then 1 else 0
  {
    SettleWork(alg, p, t, d, ts, running);
    TickKeepsTaskInv(alg, p, t, ts, running);
    ReleaseWork(alg, p, t, d, Settle(t, ts, running));
  }

  lemma ReleasesFit(t: nat, d: nat, period: nat)
    requires period > 0 && t + 1 <= d
    ensures Releases(t, d, period) <= (d - t - 1) / period
  {
    var m := Releases(t, d, period);
    var k := t / period + 1;
    if m > 0 {
      assert k * period >= t + 1 by { assert k * period == (t / period) * period + period; }
      MulMono(k + m, d / period, period);
      assert (k + m) * period == k * period + m * period;
    }
    DivAtLeast(d - t - 1, period, m);
  }

  /** What a task without pending work asks for by d is at most what a fresh task asks for in the time from t + 1. */
  lemma FutureWorkBound(alg: Algorithm, p: Params, t: nat, d: nat, ts: TaskState)
    requires p.Valid() && t + 1 <= d && Pending(alg, p, t, d, ts) == 0
    ensures Work(alg, p, t, d, ts) <= p.duration * Reds(Tolerance(alg, p), (d - t - 1) / p.period)
  {
    var w := Tolerance(alg, p);
    var m, n := Releases(t, d, p.period), (d - t - 1) / p.period;
    ReleasesFit(t, d, p.period);
    WorstRedsMonotone(w, Credit(w, ts), if w > 0 then w - 1 else 0, m, n);
    WorstRedsIsPattern(w, n);
    MulMono(WorstReds(w, Credit(w, ts), m), Reds(w, n), p.duration);
  }

  /** A new task asks for the skip pattern from time 0 on. */
  lemma NewTaskWork(alg: Algorithm, p: Params, d: nat)
    requires p.Valid()
    ensures Work(alg, p, 0, d, NewTask(alg, p)) <= p.duration * Reds(Tolerance(alg, p), d / p.period)
  {
    hide ReadyKey;
    var w := Tolerance(alg, p);
    var n := d / p.period;
    ZeroDiv(p.period);
    WorstRedsIsPattern(w, n);
    if n > 0 {
      var e := if w > 1 then w - 2 else 0;
      DistributeOne(p.duration, WorstReds(w, e, n - 1));
    } else {
      assert d < p.period;
    }
  }

  lemma DistributeOne(a: int, b: int)
    ensures a * (1 + b) == a + a * b
  {
  }
}
