/** The schedulability condition is exact for EDF and RTO, and what it comes to for the utilisation. */
module Exactness {
  import opened Arithmetic
  import opened KernelList
  import opened WeaklyHard
  import opened Periodic
  import opened PeriodicTasks
  import opened Demand
  import opened TaskInvariants
  import opened SkipPattern
  import opened Schedulability

  ghost predicate AllOnPattern(alg: Algorithm, ps: seq<Params>, v: Snapshot)
    requires ValidTaskSet(ps) && |v.tasks| == |ps|
  {
    forall i {:trigger v.tasks[i]} :: 0 <= i < |ps| ==> OnPattern(alg, ps[i], v.now, v.tasks[i])
  }

  ghost function AllReceived(alg: Algorithm, ps: seq<Params>, v: Snapshot): (r: seq<int>)
    requires ValidTaskSet(ps) && |v.tasks| == |ps|
    ensures |r| == |ps|
  {
    seq<int>(|ps|, i requires 0 <= i < |ps| => Received(alg, ps[i], v.now, v.tasks[i]))
  }

  /** The tick after `v` runs no job that may be missed, and kills no job that must be done. */
  ghost predicate RedOnly(alg: Algorithm, v: Snapshot) {
    && (v.running == NOBODY || (0 <= v.running < |v.tasks| && Must(alg, v.tasks[v.running].tcb)))
    && forall i {:trigger v.tasks[i]} :: 0 <= i < |v.tasks| ==> KilledIsBlue(alg, v, i)
  }

  /** As long as only red jobs run and none is killed, tasks are on the pattern and have not received more ticks than
      there were. */
  lemma {:induction false} HistoryOnPattern(alg: Algorithm, ps: seq<Params>, h: seq<Snapshot>, n: nat)
    requires ValidTaskSet(ps) && History(alg, ps, h) && n < |h|
    requires forall k {:trigger h[k]} :: 0 <= k < n ==> RedOnly(alg, h[k])
    ensures h[n].now == n && |h[n].tasks| == |ps|
    ensures AllOnPattern(alg, ps, h[n]) && Sum(AllReceived(alg, ps, h[n])) <= n
  {
    hide TaskInv, OnPattern, RedOnly;
    HistoryKeepsInv(alg, ps, h, n);
    if n == 0 {
      var received := AllReceived(alg, ps, h[0]);
      forall i | 0 <= i < |ps|
        ensures OnPattern(alg, ps[i], 0, h[0].tasks[i]) && received[i] == 0
      {
        NewTaskOnPattern(alg, ps[i]);
      }
      SumOfZeros(received);
    } else {
      HistoryKeepsInv(alg, ps, h, n - 1);
      HistoryOnPattern(alg, ps, h, n - 1);
      TickOnPattern(alg, ps, h[n - 1], h[n]);
    }
  }

  lemma TickOnPattern(alg: Algorithm, ps: seq<Params>, v: Snapshot, v': Snapshot)
    requires ValidTaskSet(ps) && Ticked(alg, v, v') && AllInv(alg, ps, v) && AllOnPattern(alg, ps, v) && RedOnly(alg, v)
    ensures AllOnPattern(alg, ps, v')
    ensures Sum(AllReceived(alg, ps, v')) <= Sum(AllReceived(alg, ps, v)) + 1
  {
    hide TaskInv, OnPattern, TickTask, Received;
    var a, b := AllReceived(alg, ps, v'), AllReceived(alg, ps, v);
    forall i | 0 <= i < |ps|
      ensures OnPattern(alg, ps[i], v'.now, v'.tasks[i]) && a[i] == b[i] + if i == v.running then 1 else 0
    {
      assert TaskInv(alg, ps[i], v.now, v.tasks[i]) && OnPattern(alg, ps[i], v.now, v.tasks[i]);
      assert KilledIsBlue(alg, v, i);
      TickKeepsPattern(alg, ps[i], v.now, v.tasks[i], i == v.running);
    }
    if v.running == NOBODY {
      SumMonotone(a, b);
    } else {
      SumShift(a, b, v.running, 1);
    }
  }

  /** A history in which only red jobs run, and none is killed, has done the demand of its length. */
  lemma RedOnlyMeetsDemand(alg: Algorithm, ps: seq<Params>, h: seq<Snapshot>, len: nat)
    requires ValidTaskSet(ps) && History(alg, ps, h) && len < |h|
    requires forall k {:trigger h[k]} :: 0 <= k < len ==> RedOnly(alg, h[k])
    ensures TotalDemand(alg, ps, len) <= len
  {
    hide TaskInv, OnPattern, RedOnly, TotalDemand, AllOnPattern;
    HistoryOnPattern(alg, ps, h, len);
    HistoryKeepsInv(alg, ps, h, len);
    ReceivedCoversDemand(alg, ps, h[len]);
  }

  lemma ReceivedCoversDemand(alg: Algorithm, ps: seq<Params>, v: Snapshot)
    requires ValidTaskSet(ps) && AllInv(alg, ps, v)
    ensures TotalDemand(alg, ps, v.now) <= Sum(AllReceived(alg, ps, v))
  {
    forall i | 0 <= i < |ps|
      ensures Demands(alg, ps, v.now)[i] <= AllReceived(alg, ps, v)[i]
    {
      assert TaskInv(alg, ps[i], v.now, v.tasks[i]);
      assert ps[i].Valid();
      var w, k := Tolerance(alg, ps[i]), v.now / ps[i].period;
      RedsStep(w, k);
      MulMono(Reds(w, k), Reds(w, k + 1), ps[i].duration);
    }
    SumMonotone(Demands(alg, ps, v.now), AllReceived(alg, ps, v));
  }

  // ----- EDF and RTO

  ghost predicate NeverKills(alg: Algorithm, ps: seq<Params>)
    requires ValidTaskSet(ps)
  {
    forall n: nat :: NothingKilled(Snap(Run(alg, ps, n)))
  }

  ghost predicate NeverBroken(alg: Algorithm, ps: seq<Params>)
    requires ValidTaskSet(ps)
  {
    forall n: nat :: !Run(alg, ps, n).broken
  }

  /** Kill counts never go down, and under EDF and RTO every ready job must be done. */
  lemma {:induction false} NoKillIsRedOnly(alg: Algorithm, ps: seq<Params>, h: seq<Snapshot>, n: nat)
    requires ValidTaskSet(ps) && alg != BWP && History(alg, ps, h) && n < |h| && NothingKilled(h[n])
    ensures forall k {:trigger h[k]} :: 0 <= k < n ==> RedOnly(alg, h[k])
  {
    hide RedOnly, NothingKilled, TaskInv, Ticked, Picked, Started;
    if n > 0 {
      HistoryKeepsInv(alg, ps, h, n - 1);
      NoKillInTick(alg, ps, h[n - 1], h[n]);
      NoKillIsRedOnly(alg, ps, h, n - 1);
    }
  }

  lemma NoKillInTick(alg: Algorithm, ps: seq<Params>, v: Snapshot, v': Snapshot)
    requires ValidTaskSet(ps) && alg != BWP && AllInv(alg, ps, v) && Ticked(alg, v, v') && NothingKilled(v')
    ensures NothingKilled(v) && RedOnly(alg, v)
  {
    forall i | 0 <= i < |v.tasks|
      ensures v.tasks[i].tcb.kills == 0 && KilledIsBlue(alg, v, i)
    {
      assert v'.tasks[i].tcb.kills == 0;
    }
    assert v.running != NOBODY ==> TaskInv(alg, ps[v.running], v.now, v.tasks[v.running]);
  }

  /** EDF and RTO never kill a job if and only if the demand fits. */
  lemma NeverKillsIffDemandFits(alg: Algorithm, ps: seq<Params>)
    requires ValidTaskSet(ps) && alg != BWP
    ensures NeverKills(alg, ps) <==> DemandFits(alg, ps)
  {
    hide Run, NothingKilled;
    if NeverKills(alg, ps) {
      forall len: nat
        ensures TotalDemand(alg, ps, len) <= len
      {
        var h := RunHasHistory(alg, ps, len);
        NoKillIsRedOnly(alg, ps, h, len);
        RedOnlyMeetsDemand(alg, ps, h, len);
      }
    }
    if DemandFits(alg, ps) {
      forall n: nat
        ensures NothingKilled(Snap(Run(alg, ps, n)))
      {
        DemandFitsNeverBroken(alg, ps, n);
      }
    }
  }

  /** Under RTO every kill hits a red job, so it breaks the constraint. */
  lemma {:induction false} RtoBrokenIffKilled(ps: seq<Params>, h: seq<Snapshot>, n: nat)
    requires ValidTaskSet(ps) && History(RTO, ps, h) && n < |h|
    ensures h[n].broken <==> !NothingKilled(h[n])
  {
    if n > 0 {
      RtoBrokenIffKilled(ps, h, n - 1);
      HistoryKeepsInv(RTO, ps, h, n - 1);
      RtoTickBreaksIffKills(ps, h[n - 1], h[n]);
    }
  }

  lemma RtoTickBreaksIffKills(ps: seq<Params>, v: Snapshot, v': Snapshot)
    requires ValidTaskSet(ps) && AllInv(RTO, ps, v) && Ticked(RTO, v, v')
    requires v.broken <==> !NothingKilled(v)
    ensures v'.broken <==> !NothingKilled(v')
  {
    forall i | 0 <= i < |ps|
      ensures v'.tasks[i].tcb.kills ==
              v.tasks[i].tcb.kills + if KillsRed(v'.now, v.tasks[i], i == v.running) then 1 else 0
    {
      assert TaskInv(RTO, ps[i], v.now, v.tasks[i]);
    }
    if i :| 0 <= i < |ps| && v'.tasks[i].tcb.kills > 0 {
      assert v.tasks[i].tcb.kills > 0 || KillsRed(v'.now, v.tasks[i], i == v.running);
    }
  }

  /** The exact schedulability test of RTO: the weakly-hard constraints hold for ever if and only if, in every interval
      from time 0, the red jobs of the skip pattern fit. */
  lemma RtoNeverBrokenIffDemandFits(ps: seq<Params>)
    requires ValidTaskSet(ps)
    ensures NeverBroken(RTO, ps) <==> DemandFits(RTO, ps)
  {
    hide Run, NothingKilled, DemandFits;
    NeverKillsIffDemandFits(RTO, ps);
    forall n: nat
      ensures Run(RTO, ps, n).broken <==> !NothingKilled(Snap(Run(RTO, ps, n)))
    {
      var h := RunHasHistory(RTO, ps, n);
      RtoBrokenIffKilled(ps, h, n);
    }
  }

  /** What is reported when the demand fits: EDF finishes every job in time, and RTO all but every w-th, each as soon as
      its period is over. */
  lemma ReportsThePattern(alg: Algorithm, ps: seq<Params>, n: nat, i: int, job: nat)
    requires ValidTaskSet(ps) && alg != BWP && DemandFits(alg, ps)
    requires 0 <= i < |ps| && ps[i].Valid() && job < n / ps[i].period
    ensures job in Run(alg, ps, n).tcbs[i].hits <==> RedJob(Tolerance(alg, ps[i]), job)
  {
    hide Run, NothingKilled, DemandFits, RedOnly;
    var h := RunHasHistory(alg, ps, n);
    DemandFitsNeverBroken(alg, ps, n);
    NoKillIsRedOnly(alg, ps, h, n);
    HistoryOnPattern(alg, ps, h, n);
    assert OnPattern(alg, ps[i], n, h[n].tasks[i]);
    assert h[n].tasks[i] == Local(Run(alg, ps, n), i);
  }

  // ----- BWP

  /** Once broken, always broken. */
  lemma {:induction false} BrokenStays(alg: Algorithm, ps: seq<Params>, h: seq<Snapshot>, n: nat, m: nat)
    requires ValidTaskSet(ps) && History(alg, ps, h) && n <= m < |h| && h[n].broken
    ensures h[m].broken
    decreases m
  {
    if n < m {
      BrokenStays(alg, ps, h, n, m - 1);
      assert Ticked(alg, h[m - 1], h[m - 1 + 1]);
    }
  }

  /** A tick of BWP that does not break a constraint kills no red job; so it runs a blue one if it is not red only. */
  lemma UnbrokenTickKillsBlue(ps: seq<Params>, v: Snapshot, v': Snapshot)
    requires ValidTaskSet(ps) && AllInv(BWP, ps, v) && Ticked(BWP, v, v') && !v'.broken
    ensures forall i {:trigger v.tasks[i]} :: 0 <= i < |v.tasks| ==> KilledIsBlue(BWP, v, i)
    ensures RedOnly(BWP, v) || (v.running != NOBODY && !Must(BWP, v.tasks[v.running].tcb))
  {
    forall i | 0 <= i < |v.tasks|
      ensures KilledIsBlue(BWP, v, i)
    {
      assert !KillsRed(v'.now, v.tasks[i], i == v.running);
    }
  }

  /** If BWP runs a blue job, no red one is ready. */
  lemma BlueRunsAlone(ps: seq<Params>, v: Snapshot, i: int)
    requires ValidTaskSet(ps) && AllInv(BWP, ps, v) && KeysFit(BWP, ps, v.now)
    requires v.running != NOBODY && !Must(BWP, v.tasks[v.running].tcb)
    requires 0 <= i < |ps| && v.tasks[i].ready
    ensures !Must(BWP, v.tasks[i].tcb)
  {
    var r := v.running;
    assert TaskInv(BWP, ps[i], v.now, v.tasks[i]) && TaskInv(BWP, ps[r], v.now, v.tasks[r]);
    assert v.now + ps[i].period < BIT30 && v.now + ps[r].period < BIT30;
    KeyOrder(BWP, v.tasks[i].tcb, v.tasks[r].tcb, v.now);
  }

  /** An unbroken run of BWP has met the demand of every interval it covers: up to the first tick that runs a blue job
      the tasks are on the skip pattern, and at that tick no red work is left over. */
  lemma {:induction false} UnbrokenBwpMeetsDemand(ps: seq<Params>, h: seq<Snapshot>, len: nat)
    requires ValidTaskSet(ps) && History(BWP, ps, h) && len < |h| && !h[len].broken && KeysFit(BWP, ps, len)
    ensures TotalDemand(BWP, ps, len) <= len
  {
    hide RedOnly, TotalDemand, History, ValidTaskSet;
    if forall k {:trigger h[k]} :: 0 <= k < len ==> RedOnly(BWP, h[k]) {
      RedOnlyMeetsDemand(BWP, ps, h, len);
    } else {
      var s := FirstBlueTick(h, len);
      if h[len - s - 1].broken {
        BrokenStays(BWP, ps, h, len - s - 1, len);
      }
      UnbrokenBwpMeetsDemand(ps, h, len - s - 1);
      DemandAfterBlueTick(ps, h, len, s);
    }
  }

  lemma DemandAfterBlueTick(ps: seq<Params>, h: seq<Snapshot>, len: nat, s: nat)
    requires ValidTaskSet(ps) && History(BWP, ps, h) && s < len < |h| && !h[len].broken && KeysFit(BWP, ps, len)
    requires !RedOnly(BWP, h[s]) && forall k {:trigger h[k]} :: 0 <= k < s ==> RedOnly(BWP, h[k])
    requires TotalDemand(BWP, ps, len - s - 1) <= len - s - 1
    ensures TotalDemand(BWP, ps, len) <= len
  {
    hide RedOnly, TotalDemand, Ticked, ValidTaskSet;
    HistoryOnPattern(BWP, ps, h, s);
    HistoryKeepsInv(BWP, ps, h, s);
    if h[s + 1].broken {
      BrokenStays(BWP, ps, h, s + 1, len);
    }
    assert Ticked(BWP, h[s], h[s + 1]);
    UnbrokenTickKillsBlue(ps, h[s], h[s + 1]);
    BlueTickSplitsDemand(ps, h[s], len);
  }

  lemma FirstBlueTick(h: seq<Snapshot>, len: nat) returns (s: nat)
    requires len <= |h| && exists k {:trigger h[k]} :: 0 <= k < len && !RedOnly(BWP, h[k])
    ensures s < len && !RedOnly(BWP, h[s])
    ensures forall k {:trigger h[k]} :: 0 <= k < s ==> RedOnly(BWP, h[k])
  {
    hide RedOnly;
    s := 0;
    while RedOnly(BWP, h[s])
      invariant s < len && forall k {:trigger h[k]} :: 0 <= k < s ==> RedOnly(BWP, h[k])
      decreases len - s
    {
      s := s + 1;
    }
  }

  lemma BlueTickSplitsDemand(ps: seq<Params>, v: Snapshot, len: nat)
    requires ValidTaskSet(ps) && AllInv(BWP, ps, v) && AllOnPattern(BWP, ps, v) && KeysFit(BWP, ps, v.now)
    requires v.running != NOBODY && !Must(BWP, v.tasks[v.running].tcb) && v.now + 1 <= len
    requires Sum(AllReceived(BWP, ps, v)) <= v.now
    requires TotalDemand(BWP, ps, len - v.now - 1) <= len - v.now - 1
    ensures TotalDemand(BWP, ps, len) <= len
  {
    hide TaskInv, OnPattern, Received, Must;
    var a, b, c := Demands(BWP, ps, len), AllReceived(BWP, ps, v), Demands(BWP, ps, len - v.now - 1);
    forall i | 0 <= i < |ps|
      ensures a[i] <= b[i] + c[i]
    {
      assert TaskInv(BWP, ps[i], v.now, v.tasks[i]) && OnPattern(BWP, ps[i], v.now, v.tasks[i]);
      if v.tasks[i].ready {
        BlueRunsAlone(ps, v, i);
      }
      RestOfPattern(BWP, ps[i], v.now, len, v.tasks[i]);
    }
    SumOfSums(a, b, c);
  }

  lemma {:induction false} SumOfSums(a: seq<int>, b: seq<int>, c: seq<int>)
    requires |a| == |b| == |c| && forall i :: 0 <= i < |a| ==> a[i] <= b[i] + c[i]
    ensures Sum(a) <= Sum(b) + Sum(c)
  {
    if a != [] {
      SumOfSums(a[1..], b[1..], c[1..]);
    }
  }

  /** The same test is exact for BWP, for as long as the deadlines leave the marker bits of the keys free: a run breaks no
      constraint if the demand fits, and it has broken one by the end of the first interval whose demand does not fit. */
  lemma BwpBreaksWhenDemandDoesNotFit(ps: seq<Params>, len: nat)
    requires ValidTaskSet(ps) && KeysFit(BWP, ps, len) && TotalDemand(BWP, ps, len) > len
    ensures Run(BWP, ps, len).broken
    ensures !DemandFits(BWP, ps)
  {
    hide Run;
    var h := RunHasHistory(BWP, ps, len);
    if !h[len].broken {
      UnbrokenBwpMeetsDemand(ps, h, len);
    }
  }
}
