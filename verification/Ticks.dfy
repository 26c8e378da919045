/** Tick arithmetic shared by the whole model: the counter type of the kernel, a fixed-width
    unsigned integer that wraps, and its relation to an unbounded clock. */
module Ticks {
  import opened Common

  /** The number of distinct values of `TickType_t`. Every proof holds for any width: 2^16 with
      configUSE_16_BIT_TICKS set, 2^32 otherwise. */
  type Modulus = m: int | 4 <= m witness 0x1_0000
  const M: Modulus

  /** `TickType_t`. */
  type Tick = t: int | 0 <= t < M witness 0

  /** `portMAX_DELAY`, the largest value of the type. */
  const MAX_DELAY: Tick := M - 1

  /** INCLUDE_vTaskSuspend. Without it no task ever blocks without a time limit. */
  const INCLUDE_VTASK_SUSPEND: bool

  /** Whether a block time means to wait for as long as it takes. */
  predicate Indefinite(ticksToWait: Tick) {
    INCLUDE_VTASK_SUSPEND && ticksToWait == MAX_DELAY
  }

  /** Unsigned addition at the width of the type. */
  function Plus(a: Tick, b: Tick): Tick {
    if a + b < M then a + b else a + b - M
  }

  /** Unsigned subtraction at the width of the type. */
  function Minus(a: Tick, b: Tick): Tick {
    if b <= a then a - b else a - b + M
  }

  /** What the counter shows at a moment of the unbounded clock. */
  function Wrap(time: nat): Tick {
    time % M
  }

  /** How many times the counter has wrapped by that moment. */
  function Epoch(time: nat): nat {
    time / M
  }

  /** A moment is determined by its epoch and its counter value. */
  lemma Split(time: nat)
    ensures time == Epoch(time) * M + Wrap(time)
  {
  }

  /** The only way to read a moment as an epoch and a counter value. */
  lemma SplitUnique(time: nat, epoch: nat, tick: Tick)
    requires time == epoch * M + tick
    ensures Epoch(time) == epoch && Wrap(time) == tick
  {
    DivisionUnique(time, M, epoch, tick);
  }

  /** Moving the clock on by less than one period is addition at the width of the counter, and
      crosses at most one epoch boundary: the one that shows as a smaller counter value. */
  lemma Advance(time: nat, d: Tick)
    ensures Wrap(time + d) == Plus(Wrap(time), d)
    ensures Epoch(time + d) == if Wrap(time) + d < M then Epoch(time) else Epoch(time) + 1
    ensures Epoch(time + d) == Epoch(time) <==> Wrap(time) <= Wrap(time + d)
  {
    Split(time);
    if Wrap(time) + d < M {
      SplitUnique(time + d, Epoch(time), Wrap(time) + d);
    } else {
      Distribute(Epoch(time), 1, M);
      SplitUnique(time + d, Epoch(time) + 1, Wrap(time) + d - M);
    }
  }

  /** Counter subtraction recovers a difference of clock moments up to whole periods. */
  lemma Elapsed(from: nat, to: nat)
    requires from <= to
    ensures Minus(Wrap(to), Wrap(from)) == Wrap(to - from)
    ensures to - from < M ==> Wrap(to - from) == to - from
  {
    var e := to - from;
    Split(e);
    Split(from);
    var r := Wrap(e);
    Advance(from, r);
    Split(from + r);
    Distribute(Epoch(from + r), Epoch(e), M);
    SplitUnique(to, Epoch(from + r) + Epoch(e), Wrap(from + r));
    if e < M {
      SplitUnique(e, 0, e);
    }
  }
}
