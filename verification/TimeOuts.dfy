/** Blocking time: `xTaskCheckForTimeOut`, `vTaskSetTimeOutState` and the wake-time decision of
    `vTaskDelayUntil`, each measured against the unbounded clock. */
module TimeOuts {
  import opened Ticks

  /** The number of values of `xNumOfOverflows`, an 8-bit counter on this port. */
  const OVERFLOW_COUNTS := 256

  /** `TimeOut_t`. */
  datatype TimeOut = TimeOut(overflowCount: int, timeOnEntering: Tick)

  /** `vTaskSetTimeOutState` at a given moment. */
  function SetTimeOutState(now: nat): TimeOut {
    TimeOut(Epoch(now) % OVERFLOW_COUNTS, Wrap(now))
  }

  /** `xTaskCheckForTimeOut`, which sees only the wrapping tick and overflow counters. */
  method CheckForTimeOut(tickCount: Tick, numOfOverflows: int, timeOut: TimeOut, ticksToWait: Tick)
    returns (expired: bool, timeOut': TimeOut, ticksToWait': Tick)
    ensures INCLUDE_VTASK_SUSPEND && ticksToWait == MAX_DELAY ==> !expired
    ensures !INCLUDE_VTASK_SUSPEND || ticksToWait < MAX_DELAY ==>
              expired == Expired(tickCount, numOfOverflows, timeOut, ticksToWait)
    ensures expired || Indefinite(ticksToWait) ==> timeOut' == timeOut && ticksToWait' == ticksToWait
    ensures !expired && !Indefinite(ticksToWait) ==>
              && timeOut' == TimeOut(numOfOverflows, tickCount)
              && ticksToWait' == ticksToWait - Minus(tickCount, timeOut.timeOnEntering)
              && ticksToWait' > 0
  {
    timeOut', ticksToWait' := timeOut, ticksToWait;
    if Indefinite(ticksToWait) {
      expired := false;
    } else if numOfOverflows != timeOut.overflowCount && tickCount >= timeOut.timeOnEntering {
      expired := true;
    } else if Minus(tickCount, timeOut.timeOnEntering) < ticksToWait {
      ticksToWait' := ticksToWait - Minus(tickCount, timeOut.timeOnEntering);
      timeOut' := TimeOut(numOfOverflows, tickCount);
      expired := false;
    } else {
      expired := true;
    }
  }

  predicate Expired(tickCount: Tick, numOfOverflows: int, timeOut: TimeOut, ticksToWait: Tick) {
    || (numOfOverflows != timeOut.overflowCount && tickCount >= timeOut.timeOnEntering)
    || ticksToWait <= Minus(tickCount, timeOut.timeOnEntering)
  }

  predicate ExpiredAt(now: nat, entered: nat, ticksToWait: Tick) {
    Expired(Wrap(now), Epoch(now) % OVERFLOW_COUNTS, SetTimeOutState(entered), ticksToWait)
  }

  /** The verdict on a finite wait is right for exactly these moments: less than a counter period
      has passed, or the counters give the longer wait away, or the left-over happens to be late. */
  lemma TimeOutExact(entered: nat, now: nat, wait: Tick)
    requires entered <= now
    ensures (ExpiredAt(now, entered, wait) <==> now - entered >= wait)
       <==> || now - entered < M
            || (Epoch(now) % OVERFLOW_COUNTS != Epoch(entered) % OVERFLOW_COUNTS && Wrap(now) >= Wrap(entered))
            || Wrap(now - entered) >= wait
  {
    Elapsed(entered, now);
    if now - entered < M {
      Advance(entered, now - entered);
    }
  }

  /** In particular it is right whenever fewer than two overflows separate the two moments. */
  lemma TimeOutWithinTwoOverflows(entered: nat, now: nat, wait: Tick)
    requires entered <= now && Epoch(now) < Epoch(entered) + 2
    ensures ExpiredAt(now, entered, wait) <==> now - entered >= wait
  {
    TimeOutExact(entered, now, wait);
    WithinTwoEpochs(entered, now);
    hide ExpiredAt, Epoch, Wrap;
    if Epoch(now) == Epoch(entered) + 1 {
      CountsDiffer(Epoch(entered));
    }
  }

  lemma WithinTwoEpochs(entered: nat, now: nat)
    requires entered <= now && Epoch(now) < Epoch(entered) + 2
    ensures now - entered < M || (Epoch(now) == Epoch(entered) + 1 && Wrap(now) >= Wrap(entered))
  {
    Split(entered);
    Split(now);
    var d := Epoch(now) - Epoch(entered);
    assert d * M == Epoch(now) * M - Epoch(entered) * M;
    hide Epoch, Wrap;
    assert d < 0 ==> d * M <= -1 * M;
  }

  lemma CountsDiffer(e: nat)
    ensures (e + 1) % OVERFLOW_COUNTS != e % OVERFLOW_COUNTS
  {
  }

  /** With two overflows it can be wrong: an elapsed wait is reported as still running. */
  lemma TimeOutMissed()
    ensures !ExpiredAt(2 * M, M - 1, 2) && 2 * M - (M - 1) >= 2
  {
    SplitUnique(2 * M, 2, 0);
    SplitUnique(M - 1, 0, M - 1);
  }

  /** What a blocking call keeps between retries: the moment last recorded and the wait left. */
  datatype Wait = TimedOut | Waiting(entered: nat, left: Tick)

  /** One trip round the retry loop of a blocking send or receive that found the queue unusable. */
  function Retry(w: Wait, now: nat): Wait
    requires w.Waiting? ==> !Indefinite(w.left) && w.entered <= now
  {
    if w.TimedOut? || ExpiredAt(now, w.entered, w.left) then TimedOut
    else
      assert Minus(Wrap(now), Wrap(w.entered)) < w.left;
      Waiting(now, w.left - Minus(Wrap(now), Wrap(w.entered)))
  }

  /** Successive retries, none of them two overflows after the one before. */
  ghost predicate Timely(from: nat, checks: seq<nat>)
    decreases checks
  {
    checks == [] || (from <= checks[0] && Epoch(checks[0]) < Epoch(from) + 2 && Timely(checks[0], checks[1..]))
  }

  function Retries(w: Wait, checks: seq<nat>): Wait
    requires w.Waiting? ==> !Indefinite(w.left) && Timely(w.entered, checks)
    decreases checks
  {
    if w.TimedOut? || checks == [] then w
    else
      var w' := Retry(w, checks[0]);
      if w'.TimedOut? then w' else Retries(w', checks[1..])
  }

  /** Deadline conservation: however often a blocked call wakes and retries, it gives up at the
      first retry at or after the deadline fixed on entry, and until then the deadline stands. */
  lemma {:induction false} DeadlineKept(entered: nat, wait: Tick, checks: seq<nat>)
    requires 0 < wait && !Indefinite(wait) && Timely(entered, checks)
    ensures var w := Retries(Waiting(entered, wait), checks);
            && (w.TimedOut? <==> exists i :: 0 <= i < |checks| && checks[i] >= entered + wait)
            && (w.Waiting? ==> w.entered + w.left == entered + wait && w.left > 0)
    decreases checks
  {
    if checks != [] {
      var now := checks[0];
      TimeOutWithinTwoOverflows(entered, now, wait);
      var w := Retry(Waiting(entered, wait), now);
      if w.Waiting? {
        Elapsed(entered, now);
        DeadlineKept(now, w.left, checks[1..]);
        if i :| 0 <= i < |checks| && checks[i] >= entered + wait {
          assert checks[1..][i - 1] == checks[i];
        }
      }
    }
  }

  /** The decision of `vTaskDelayUntil`: whether to block, and the wake time it stores. */
  method DelayUntil(tickCount: Tick, previousWakeTime: Tick, timeIncrement: Tick)
    returns (shouldDelay: bool, timeToWake: Tick)
    ensures timeToWake == Plus(previousWakeTime, timeIncrement)
    ensures shouldDelay == (Minus(tickCount, previousWakeTime) < timeIncrement)
  {
    shouldDelay := false;
    timeToWake := Plus(previousWakeTime, timeIncrement);
    if tickCount < previousWakeTime {
      if timeToWake < previousWakeTime && timeToWake > tickCount {
        shouldDelay := true;
      }
    } else {
      if timeToWake < previousWakeTime || timeToWake > tickCount {
        shouldDelay := true;
      }
    }
  }

  /** The comparison above blocks the caller exactly when its next wake time lies ahead, provided it
      is less than a counter period late; beyond that it is right exactly when the time by which it
      is late, taken modulo the counter, is no shorter than the increment. */
  lemma DelayUntilExact(previous: nat, increment: Tick, now: nat)
    requires previous <= now
    ensures (Minus(Wrap(now), Wrap(previous)) < increment <==> now < previous + increment)
       <==> now - previous < M || Wrap(now - previous) >= increment
  {
    Elapsed(previous, now);
  }

  /** One such call: a whole counter period late with an increment of one tick, it blocks though its time has passed. */
  lemma DelayUntilMissed()
    ensures Minus(Wrap(M), Wrap(0)) < 1 && 0 + 1 <= M
  {
    SplitUnique(M, 1, 0);
    SplitUnique(0, 0, 0);
  }

  /** The wake time stored by the k-th call, whatever happened between the calls. */
  function WakeTimeAfter(k: nat, previous: Tick, increment: Tick): Tick {
    if k == 0 then previous else Plus(WakeTimeAfter(k - 1, previous, increment), increment)
  }

  /** No drift: after k periods the stored wake time shows the start plus k increments. */
  lemma {:induction false} NoDrift(k: nat, start: nat, increment: Tick)
    ensures k * increment >= 0 && WakeTimeAfter(k, Wrap(start), increment) == Wrap(start + k * increment)
  {
    if k > 0 {
      NoDrift(k - 1, start, increment);
      assert k * increment == (k - 1) * increment + increment;
      Advance(start + (k - 1) * increment, increment);
    }
  }
}
