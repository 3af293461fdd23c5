/** As long as only jobs that must be done are run, and none of them is killed, a task follows a fixed pattern: under EDF
    every job is done, under RTO and BWP all but every w-th. This module says which jobs have then been reported and how
    many ticks the task has received. */
module SkipPattern {
  import opened Arithmetic
  import opened KernelList
  import opened WeaklyHard
  import opened Periodic
  import opened PeriodicTasks
  import opened Demand
  import opened TaskInvariants

  /** With k the job of the period in progress: the counter holds the red jobs met since the last miss, and exactly the
      red jobs that are over have been reported. */
  ghost predicate OnPattern(alg: Algorithm, p: Params, t: nat, ts: TaskState)
    requires p.Valid()
  {
    var w := Tolerance(alg, p);
    var k := t / p.period;
    && (w > 0 ==> ts.tcb.met == if ts.ready then k % w else if RedJob(w, k) then k % w + 1 else 0)
    && (forall j: nat :: j in ts.tcb.hits <==> RedJob(w, j) && (j < k || (j == k && !ts.ready)))
  }

  /** The ticks that the task's red jobs have received so far. */
  function Received(alg: Algorithm, p: Params, t: nat, ts: TaskState): int
    requires p.Valid()
  {
    var w := Tolerance(alg, p);
    var k := t / p.period;
    if ts.ready && RedJob(w, k) then p.duration * Reds(w, k) + p.duration - ts.tcb.remaining
    else p.duration * Reds(w, k + 1)
  }

  /** On the pattern, the jobs that must be done are the red jobs of the pattern. */
  lemma MustIsRedJob(alg: Algorithm, p: Params, t: nat, ts: TaskState)
    requires p.Valid() && TaskInv(alg, p, t, ts) && OnPattern(alg, p, t, ts) && ts.ready
    ensures Must(alg, ts.tcb) <==> RedJob(Tolerance(alg, p), t / p.period)
  {
    hide ReadyKey;
    var w := Tolerance(alg, p);
    if w > 0 {
      assert 0 <= (t / p.period) % w < w;
    }
  }

  lemma NewTaskOnPattern(alg: Algorithm, p: Params)
    requires p.Valid()
    ensures OnPattern(alg, p, 0, NewTask(alg, p)) && Received(alg, p, 0, NewTask(alg, p)) == 0
  {
    hide ReadyKey;
    ZeroDiv(p.period);
    var w := Tolerance(alg, p);
    if w > 0 {
      ZeroDiv(w);
    }
    RedsStep(w, 0);
  }

  /** A tick in which the task runs only a job that must be done, and is not killed in one, keeps the pattern and gives
      the running job one tick. */
  lemma TickKeepsPattern(alg: Algorithm, p: Params, t: nat, ts: TaskState, running: bool)
    requires p.Valid() && TaskInv(alg, p, t, ts) && OnPattern(alg, p, t, ts)
    requires running ==> ts.ready && Must(alg, ts.tcb)
    requires var c := ChargeTask(t + 1, ts, running); Killed(t + 1, c) ==> !Must(alg, c.tcb)
    ensures var r := TickTask(alg, t + 1, ts, running);
            && OnPattern(alg, p, t + 1, r)
            && Received(alg, p, t + 1, r) == Received(alg, p, t, ts) + if running then 1 else 0
  {
    hide OnPattern, Received;
    TickKeepsTaskInv(alg, p, t, ts, running);
    SettleKeepsPattern(alg, p, t, ts, running);
    WakeKeepsPattern(alg, p, t, Settle(t, ts, running));
  }

  lemma SettleKeepsPattern(alg: Algorithm, p: Params, t: nat, ts: TaskState, running: bool)
    requires p.Valid() && TaskInv(alg, p, t, ts) && OnPattern(alg, p, t, ts)
    requires running ==> ts.ready && Must(alg, ts.tcb)
    requires var c := ChargeTask(t + 1, ts, running); Killed(t + 1, c) ==> !Must(alg, c.tcb)
    ensures var r := Settle(t, ts, running);
            && OnPattern(alg, p, t, r)
            && Received(alg, p, t, r) == Received(alg, p, t, ts) + if running then 1 else 0
  {
    hide ReadyKey, Reds;
    if ts.ready {
      SettleReady(alg, p, t, ts, running);
    }
  }

  lemma SettleReady(alg: Algorithm, p: Params, t: nat, ts: TaskState, running: bool)
    requires p.Valid() && TaskInv(alg, p, t, ts) && OnPattern(alg, p, t, ts) && ts.ready
    requires running ==> Must(alg, ts.tcb)
    requires var c := ChargeTask(t + 1, ts, running); Killed(t + 1, c) ==> !Must(alg, c.tcb)
    ensures var r := Settle(t, ts, running);
            && OnPattern(alg, p, t, r)
            && Received(alg, p, t, r) == Received(alg, p, t, ts) + if running then 1 else 0
  {
    hide ReadyKey, Reds;
    var w := Tolerance(alg, p);
    var k := t / p.period;
    RedsStep(w, k);
    MustIsRedJob(alg, p, t, ts);
    assert ts.tcb.start == k * p.period + 0;
    DivModUnique(ts.tcb.start, p.period, k, 0);
    DistributeOne(p.duration, Reds(w, k));
  }

  lemma WakeKeepsPattern(alg: Algorithm, p: Params, t: nat, c: TaskState)
    requires p.Valid() && OnPattern(alg, p, t, c)
    requires c.tcb.period == p.period && c.tcb.duration == p.duration && c.tcb.constraint == p.constraint
    requires (t + 1) % p.period == 0 ==> !c.ready
    ensures var r := WakeTask(alg, t + 1, c);
            && OnPattern(alg, p, t + 1, r)
            && Received(alg, p, t + 1, r) == Received(alg, p, t, c)
  {
    hide ReadyKey;
    var w := Tolerance(alg, p);
    var k := t / p.period;
    DivStep(t, p.period);
    if (t + 1) % p.period == 0 {
      RedsStep(w, k + 1);
      if w > 0 {
        DivStep(k, w);
      }
    }
  }

  /** When no red job is pending, what the pattern asks for by d beyond what has been received fits a fresh start. */
  lemma RestOfPattern(alg: Algorithm, p: Params, t: nat, d: nat, ts: TaskState)
    requires p.Valid() && TaskInv(alg, p, t, ts) && OnPattern(alg, p, t, ts) && t + 1 <= d
    requires ts.ready ==> !Must(alg, ts.tcb)
    ensures p.duration * Reds(Tolerance(alg, p), d / p.period)
         <= Received(alg, p, t, ts) + p.duration * Reds(Tolerance(alg, p), (d - t - 1) / p.period)
  {
    hide OnPattern;
    if ts.ready {
      MustIsRedJob(alg, p, t, ts);
    }
    PatternSplits(Tolerance(alg, p), p, t, d);
  }

  lemma PatternSplits(w: nat, p: Params, t: nat, d: nat)
    requires p.Valid() && t + 1 <= d
    ensures p.duration * Reds(w, d / p.period)
         <= p.duration * Reds(w, t / p.period + 1) + p.duration * Reds(w, (d - t - 1) / p.period)
  {
    hide Reds;
    var k, m := t / p.period, Releases(t, d, p.period);
    var a, b := Reds(w, k + 1), Reds(w, (d - t - 1) / p.period);
    ReleasesFit(t, d, p.period);
    DivMonotone(t, d, p.period);
    RedsOfSum(w, k + 1, m);
    RedsMonotone(w, m, (d - t - 1) / p.period);
    RedsMonotone(w, d / p.period, k + 1 + m);
    MulMono(Reds(w, d / p.period), a + b, p.duration);
    assert p.duration * (a + b) == p.duration * a + p.duration * b;
  }

  lemma DivMonotone(t: nat, d: nat, period: nat)
    requires period > 0 && t <= d
    ensures t / period <= d / period
  {
    DivAtLeast(d, period, t / period);
  }

  lemma {:induction false} RedsMonotone(w: nat, m: nat, n: nat)
    requires m <= n
    ensures Reds(w, m) <= Reds(w, n)
    decreases n - m
  {
    if m < n {
      RedsStep(w, m);
      RedsMonotone(w, m + 1, n);
    }
  }

  /** A stretch of the pattern holds no more red jobs than a fresh start of the same length. */
  lemma RedsOfSum(w: nat, k: nat, m: nat)
    ensures Reds(w, k + m) <= Reds(w, k) + Reds(w, m)
  {
    if w > 0 {
      var q := k / w + m / w;
      assert k + m >= q * w by { assert q * w == (k / w) * w + (m / w) * w; }
      DivAtLeast(k + m, w, q);
    }
  }
}
