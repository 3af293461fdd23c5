/** Time arithmetic on the wrapping tick type: xTaskDelayUntil and the time-out state of tasks.c, against an unbounded
    clock. Ticks are numbers below M; the counter shows `clock % M` and has wrapped `clock / M` times. */
module TimeOuts {
  import opened Arithmetic

  /** `b` ticks back from `a`, in the tick type. */
  function TickDifference(a: nat, b: nat, M: nat): (r: nat)
    requires a < M && b < M
    ensures r < M
  {
    if a >= b then a - b else a - b + M
  }

  /** The tick difference of two readings is the time between them, modulo M. */
  lemma DifferenceOfReadings(now: nat, earlier: nat, M: nat)
    requires M > 0 && earlier <= now
    ensures TickDifference(now % M, earlier % M, M) == (now - earlier) % M
    ensures now - earlier < M ==> (now - earlier) % M == now - earlier
    ensures now % M < earlier % M ==> now / M > earlier / M
    ensures now - earlier < M && now % M >= earlier % M ==> now / M == earlier / M
    ensures now - earlier >= M ==> now / M > earlier / M
  {
    var q, q', r, r' := now / M, earlier / M, now % M, earlier % M;
    assert now - earlier == (q - q') * M + (r - r');
    if r >= r' {
      DivModUnique(now - earlier, M, q - q', r - r');
    } else {
      DivModUnique(now - earlier, M, q - q' - 1, r - r' + M);
      assert (q - q') * M == (q - q' - 1) * M + M;
    }
    if now - earlier < M {
      DivModUnique(now - earlier, M, 0, now - earlier);
    }
    if q <= q' {
      MulMono(q, q', M);
    }
    if q > q' {
      MulMono(1, q - q', M);
    }
  }

  // ----- xTaskDelayUntil

  /** Whether xTaskDelayUntil blocks, from the counter, the previous wake time and the new one. */
  predicate ShouldDelay(tickCount: nat, previous: nat, timeToWake: nat) {
    if tickCount < previous then timeToWake < previous && timeToWake > tickCount
    else timeToWake < previous || timeToWake > tickCount
  }

  /** The decision in unbounded time: the task blocks if less than the increment has passed, modulo M. So it blocks
      exactly if the new wake time is in the future, unless the call came a whole turn of the counter or more late and by
      less than the increment beyond a multiple of it. */
  lemma ShouldDelayExact(now: nat, wake: nat, increment: nat, M: nat)
    requires 0 < increment < M && wake <= now
    ensures var blocks := ShouldDelay(now % M, wake % M, (wake + increment) % M);
            && (blocks <==> (now - wake) % M < increment)
            && ((blocks <==> wake + increment > now) <==> now - wake < M || (now - wake) % M >= increment)
  {
    DifferenceOfReadings(now, wake, M);
    SumOfReadings(wake, increment, M);
  }

  lemma SumOfReadings(a: nat, b: nat, M: nat)
    requires b < M
    ensures (a + b) % M == if a % M + b < M then a % M + b else a % M + b - M
  {
    if a % M + b < M {
      DivModUnique(a + b, M, a / M, a % M + b);
    } else {
      DivModUnique(a + b, M, a / M + 1, a % M + b - M);
    }
  }

  /** A task that calls xTaskDelayUntil. */
  class PeriodicTask {
    const M: nat
    var previousWakeTime: nat
    ghost var wake: nat

    ghost predicate Valid()
      reads this
    {
      M > 1 && previousWakeTime == wake % M
    }

    constructor (M: nat, ghost now: nat, tickCount: nat)
      requires M > 1 && tickCount == now % M
      ensures Valid() && this.M == M && wake == now
    {
      this.M, previousWakeTime, wake := M, tickCount, now;
    }

    /** xTaskDelayUntil at the instant `now`; `blockTime` is what it passes on if it blocks. */
    method DelayUntil(ghost now: nat, tickCount: nat, increment: nat) returns (shouldDelay: bool, blockTime: nat)
      requires Valid() && 0 < increment < M && wake <= now && tickCount == now % M
      modifies this
      ensures Valid() && wake == old(wake) + increment
      ensures now - old(wake) < M ==> (shouldDelay <==> wake > now)
      ensures now - old(wake) < M && shouldDelay ==> blockTime == wake - now
      ensures !shouldDelay ==> blockTime == 0
    {
      var timeToWake := (previousWakeTime + increment) % M;
      ModOfSum(wake, increment, M);
      ShouldDelayExact(now, wake, increment, M);
      shouldDelay := ShouldDelay(tickCount, previousWakeTime, timeToWake);
      previousWakeTime := timeToWake;
      wake := wake + increment;
      blockTime := 0;
      if shouldDelay {
        blockTime := TickDifference(timeToWake, tickCount, M);
        if wake > now {
          DifferenceOfReadings(wake, now, M);
        }
      }
    }

    /** Repeated calls: the n-th one aims at the start plus n increments, whatever the calls before it did, and each blocks
        until its own instant if that is still to come. `nows[k]` is when call k is made. */
    method DelayRepeatedly(ghost nows: seq<nat>, tickCounts: seq<nat>, increment: nat) returns (blocked: seq<nat>)
      requires Valid() && 0 < increment < M && |tickCounts| == |nows|
      requires forall k :: 0 <= k < |nows| ==> wake + k * increment <= nows[k] < wake + k * increment + M
      requires forall k :: 0 <= k < |nows| ==> tickCounts[k] == nows[k] % M
      modifies this
      ensures Valid() && wake == old(wake) + |nows| * increment && |blocked| == |nows|
      ensures forall k :: 0 <= k < |nows| ==>
                var target := old(wake) + (k + 1) * increment;
                blocked[k] == if target > nows[k] then target - nows[k] else 0
    {
      blocked := [];
      for k := 0 to |tickCounts|
        invariant Valid() && |blocked| == k && wake == old(wake) + k * increment
        invariant forall j :: 0 <= j < k ==>
                    var target := old(wake) + (j + 1) * increment;
                    blocked[j] == if target > nows[j] then target - nows[j] else 0
      {
        assert (k + 1) * increment == k * increment + increment;
        var _, blockTime := DelayUntil(nows[k], tickCounts[k], increment);
        blocked := blocked + [blockTime];
      }
    }
  }

  // ----- xTaskCheckForTimeOut

  /** The time-out state of a wait, and the ticks it may still take. */
  class TimeOut {
    const M: nat
    var overflowCount: nat
    var timeOnEntering: nat
    var ticksToWait: nat
    ghost var entry: nat

    ghost predicate Valid()
      reads this
    {
      M > 1 && ticksToWait < M && overflowCount == entry / M && timeOnEntering == entry % M
    }

    /** vTaskSetTimeOutState, with the block time of the call */
    constructor (M: nat, ghost now: nat, tickCount: nat, numOfOverflows: nat, ticksToWait: nat)
      requires M > 1 && ticksToWait < M && tickCount == now % M && numOfOverflows == now / M
      ensures Valid() && this.M == M && entry == now && this.ticksToWait == ticksToWait
    {
      this.M, overflowCount, timeOnEntering := M, numOfOverflows, tickCount;
      this.ticksToWait, entry := ticksToWait, now;
    }

    /** vTaskInternalSetTimeOutState */
    method SetTimeOutState(ghost now: nat, tickCount: nat, numOfOverflows: nat)
      requires Valid() && tickCount == now % M && numOfOverflows == now / M
      modifies this`overflowCount, this`timeOnEntering, this`entry
      ensures Valid() && entry == now
    {
      overflowCount, timeOnEntering, entry := numOfOverflows, tickCount, now;
    }

    /** xTaskCheckForTimeOut at the instant `now`, no abort being pending. The largest block time never times out. For any
        other, the answer is right, and otherwise entry time plus remaining ticks is kept, if less than a turn of the
        counter has passed. After a longer time it is still right unless the counter stands below the entry time again
        and shows less than the block time. */
    method CheckForTimeOut(ghost now: nat, tickCount: nat, numOfOverflows: nat) returns (timedOut: bool)
      requires Valid() && entry <= now && tickCount == now % M && numOfOverflows == now / M
      modifies this`overflowCount, this`timeOnEntering, this`entry, this`ticksToWait
      ensures Valid()
      ensures old(ticksToWait) == M - 1 ==>
                !timedOut && ticksToWait == old(ticksToWait) && entry == old(entry)
      ensures old(ticksToWait) < M - 1 && now - old(entry) < M ==>
                && (timedOut <==> now >= old(entry) + old(ticksToWait))
                && (!timedOut ==> entry == now && entry + ticksToWait == old(entry) + old(ticksToWait))
      ensures old(ticksToWait) < M - 1 ==>
                ((timedOut <==> now >= old(entry) + old(ticksToWait)) <==>
                 now - old(entry) < M || now % M >= old(entry) % M || (now - old(entry)) % M >= old(ticksToWait))
      ensures timedOut ==> ticksToWait == 0 && entry == old(entry)
    {
      DifferenceOfReadings(now, entry, M);
      var elapsedTime := TickDifference(tickCount, timeOnEntering, M);
      if ticksToWait == M - 1 {
        timedOut := false;
      } else if numOfOverflows != overflowCount && tickCount >= timeOnEntering {
        timedOut := true;
        ticksToWait := 0;
      } else if elapsedTime < ticksToWait {
        ticksToWait := ticksToWait - elapsedTime;
        SetTimeOutState(now, tickCount, numOfOverflows);
        timedOut := false;
      } else {
        ticksToWait := 0;
        timedOut := true;
      }
    }

    /** The retry loop of a blocking call: checks at the instants `nows`, less than a turn of the counter apart. It stops
        at the first one that finds the original block time spent. */
    method CheckRepeatedly(ghost nows: seq<nat>, tickCounts: seq<nat>, overflows: seq<nat>) returns (k: nat)
      requires Valid() && ticksToWait < M - 1 && |tickCounts| == |overflows| == |nows|
      requires forall i :: 0 <= i < |nows| ==> tickCounts[i] == nows[i] % M && overflows[i] == nows[i] / M
      requires forall i :: 0 <= i < |nows| ==>
                 var before := if i == 0 then entry else nows[i - 1]; before <= nows[i] < before + M
      modifies this
      ensures k <= |nows|
      ensures forall i :: 0 <= i < k ==> nows[i] < old(entry) + old(ticksToWait)
      ensures k < |nows| ==> nows[k] >= old(entry) + old(ticksToWait)
    {
      k := 0;
      while k < |tickCounts|
        invariant Valid() && k <= |nows| && ticksToWait < M - 1
        invariant entry == if k == 0 then old(entry) else nows[k - 1]
        invariant entry + ticksToWait == old(entry) + old(ticksToWait)
        invariant forall i :: 0 <= i < k ==> nows[i] < old(entry) + old(ticksToWait)
      {
        var timedOut := CheckForTimeOut(nows[k], tickCounts[k], overflows[k]);
        if timedOut {
          return;
        }
        k := k + 1;
      }
    }
  }
}
