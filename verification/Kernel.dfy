/** The scheduler of tasks.c: kernel time, blocking, suspension of the scheduler and selection. */
module Kernels {
  import opened Common
  import opened Ticks
  import opened Rings
  import opened SortedLists
  import opened TaskLists
  import opened TimeOuts
  import opened KernelLists
  import Turns

  /** Whether some woken task has at least the priority of the current one. */
  ghost predicate Outranked(woken: seq<Task>, tcbs: Tcbs, current: Task) {
    current in tcbs && exists t :: t in woken && t in tcbs && tcbs[t].priority >= tcbs[current].priority
  }

  /** The clock time of the last wrap, and what an 8-bit counter of the wraps shows. */
  ghost predicate EpochShown(epoch: nat, start: nat, count: nat) {
    start == epoch * M && count == epoch % OVERFLOW_COUNTS
  }

  lemma NextEpoch(epoch: nat, start: nat, count: nat)
    requires EpochShown(epoch, start, count)
    ensures EpochShown(epoch + 1, start + M, (count + 1) % OVERFLOW_COUNTS)
  {
    Distribute(epoch, 1, M);
    CountOn(epoch);
  }

  lemma CountOn(epoch: nat)
    ensures (epoch % OVERFLOW_COUNTS + 1) % OVERFLOW_COUNTS == (epoch + 1) % OVERFLOW_COUNTS
  {
  }

  /** Whether another task of the same priority is ready: a time slice ends with the tick. */
  predicate Shared(ls: Lists, tcbs: Tcbs, current: Task) {
    current in tcbs && |ls.Items(Ready(tcbs[current].priority))| > 1
  }

  /** That is so exactly if another task of the running one's priority is ready. */
  lemma SharedMeans(ls: Lists, tcbs: Tcbs, current: Task)
    requires PlacedIn(ls, tcbs, {}) && current in tcbs && current in ls.generic && ls.generic[current].Ready?
    ensures Shared(ls, tcbs, current) <==>
              exists t :: t != current && t in ls.generic && ls.generic[t] == Ready(tcbs[current].priority)
  {
    var items := ls.Items(Ready(tcbs[current].priority));
    assert ls.Contains(Ready(tcbs[current].priority), current) && ls.Get(Ready(tcbs[current].priority)).Valid();
    var k := IndexOf(items, current);
    if t :| t != current && t in ls.generic && ls.generic[t] == Ready(tcbs[current].priority) {
      assert ls.Contains(Ready(tcbs[current].priority), t);
      assert IndexOf(items, t) != k;
    }
    if |items| > 1 {
      var i := if k == 0 then 1 else 0;
      assert items[i] != items[k] && ls.Contains(Ready(tcbs[current].priority), items[i]);
    }
  }

  /** Once it is shared, tasks that become ready leave it so. */
  lemma SharedMore(ls: Lists, ls': Lists, ts: seq<Task>, tcbs: Tcbs, current: Task)
    requires Turns.Joins(ls, ls', ts, tcbs) && ls.Consistent() && ls'.Consistent() && Shared(ls, tcbs, current)
    ensures Shared(ls', tcbs, current)
  {
    var p := tcbs[current].priority;
    assert ls.Get(Ready(p)).Valid() && ls'.Get(Ready(p)).Valid();
    assert |Turns.TurnsAt(ls, p).order| == |ls.Items(Ready(p))|
        && |Turns.TurnsAt(ls', p).order| == |ls'.Items(Ready(p))|;
  }

  /** If the running task had the highest priority of all ready tasks, a tick asks for a switch exactly if another task
      of at least its priority is ready afterwards. */
  lemma SwitchWanted(ls: Lists, ls': Lists, tcbs: Tcbs, woken: seq<Task>, current: Task)
    requires PlacedIn(ls, tcbs, {}) && PlacedIn(ls', tcbs, {}) && current in tcbs
    requires IsReady(ls, current) && HighestReady(ls, tcbs, tcbs[current].priority)
    requires (forall t :: t in woken ==> t in tcbs && t in ls.generic && !IsReady(ls, t))
                && ls' == ls.WakeAll(woken, tcbs)
    ensures Shared(ls', tcbs, current) || Outranked(woken, tcbs, current) <==>
              exists t :: t != current && IsReady(ls', t) && t in tcbs && tcbs[t].priority >= tcbs[current].priority
  {
    hide Lists.WakeAll, Shared;
    WakeAllPlaces(ls, woken, tcbs);
    SharedMeans(ls', tcbs, current);
    if t :| t in woken && t in tcbs && tcbs[t].priority >= tcbs[current].priority {
      assert IsReady(ls', t);
    }
  }

  lemma NobodyOutranks(tcbs: Tcbs, current: Task)
    ensures !Outranked([], tcbs, current)
  {
  }

  lemma OutrankedBy(readied: seq<Task>, tcbs: Tcbs, current: Task)
    requires current in tcbs
    ensures forall t :: t in readied && t in tcbs && tcbs[t].priority >= tcbs[current].priority ==>
              Outranked(readied, tcbs, current)
    ensures Outranked(readied, tcbs, current) ==>
              exists t :: t in readied && t in tcbs && tcbs[t].priority >= tcbs[current].priority
  {
  }

  lemma OneOutranks(some: seq<Task>, t: Task, tcbs: Tcbs, current: Task)
    requires t in tcbs && current in tcbs
    ensures Outranked(some + [t], tcbs, current) <==>
              Outranked(some, tcbs, current) || tcbs[t].priority >= tcbs[current].priority
  {
    assert t in some + [t];
  }

  lemma OutrankedToo(some: seq<Task>, all: seq<Task>, tcbs: Tcbs, current: Task)
    requires forall t :: t in some ==> t in all
    ensures Outranked(some, tcbs, current) ==> Outranked(all, tcbs, current)
  {
  }

  lemma OutrankedMore(a: seq<Task>, b: seq<Task>, tcbs: Tcbs, current: Task)
    ensures Outranked(a + b, tcbs, current) <==> Outranked(a, tcbs, current) || Outranked(b, tcbs, current)
  {
  }

  /** The task's event item has joined an event list, and nothing else has changed. */
  ghost predicate IsJoined(ls: Lists, ls': Lists, t: Task, owner: nat) {
    && ls'.generic == ls.generic && ls'.event == ls.event[t := Event(owner)]
    && forall id :: id != Event(owner) ==> ls'.Get(id) == ls.Get(id)
  }

  ghost predicate IsReady(ls: Lists, t: Task) {
    t in ls.generic && ls.generic[t].Ready?
  }

  /** The idle task and the timer service's task have joined their ready lists. */
  ghost predicate Started(ls: Lists, ls': Lists, idle: Task, daemon: Task, daemonPriority: nat) {
    exists ls1 :: IsNew(ls, ls1, 0, idle) && IsNew(ls1, ls', daemonPriority, daemon)
  }

  lemma StartedBy(ls: Lists, ls1: Lists, ls': Lists, idle: Task, daemon: Task, daemonPriority: nat)
    requires IsNew(ls, ls1, 0, idle) && IsNew(ls1, ls', daemonPriority, daemon)
    ensures Started(ls, ls', idle, daemon, daemonPriority)
  {
  }

  lemma StartedTurns(ls: Lists, ls1: Lists, ls': Lists, idle: Task, daemon: Task, daemonPriority: nat, tcbs: Tcbs)
    requires IsNew(ls, ls1, 0, idle) && IsNew(ls1, ls', daemonPriority, daemon)
    requires idle in tcbs && tcbs[idle].priority == 0 && daemon in tcbs && tcbs[daemon].priority == daemonPriority
    ensures Turns.Joins(ls, ls', [idle] + [daemon], tcbs)
  {
    hide IsNew;
    NewTurns(ls, ls1, idle, tcbs);
    NewTurns(ls1, ls', daemon, tcbs);
    Turns.JoinsMore(ls, ls1, ls', [idle], [daemon], tcbs);
  }

  lemma StartedElsewhere(ls: Lists, ls': Lists, idle: Task, daemon: Task, daemonPriority: nat, t: Task)
    requires Started(ls, ls', idle, daemon, daemonPriority) && t != idle && t != daemon
    ensures (t in ls.generic <==> t in ls'.generic) && (t in ls.generic ==> ls'.generic[t] == ls.generic[t])
  {
  }

  lemma MovedTo(ls: Lists, ls': Lists, t: Task, id: ListId)
    requires IsMoved(ls, ls', t, id)
    ensures t in ls'.generic && ls'.generic[t] == id
  {
  }

  /** A deleted task that the scheduler starts with all the same, and that delays itself, leaves the termination list,
      which from then on is shorter than the count of deleted tasks says. */
  lemma DeletedDelays(ls: Lists, ls': Lists, tcbs: Tcbs, t: Task, which: nat, wake: Tick, tasksDeleted: nat)
    requires ls.Consistent() && t in ls.generic && ls.generic[t] == Termination
         && tasksDeleted == |ls.Items(Termination)|
    requires IsDelayed(ls.RemoveGeneric(t), ls', tcbs, t, which, wake)
    ensures t in ls'.generic && ls'.generic[t] == Delayed(which) && |ls'.Items(Termination)| < tasksDeleted
  {
    assert ls.Contains(Termination, t);
  }

  /** A run to such a start: the only task, of priority 3, is deleted before the scheduler starts with a timer service
      of priority 2. */
  method StartsDeleted() returns (kernel: Kernel)
    requires 3 < MAX_PRIORITIES
    ensures kernel.Valid() && kernel.schedulerRunning && kernel.currentTask == 1 && !kernel.Running()
    ensures 1 in kernel.lists.generic && kernel.lists.generic[1] == Termination && kernel.tasksDeleted == 1
  {
    hide EpochShown, IsNew, Started, Good, Lists.Consistent, Deadlines, SomeReady, Turns.Joins;
    kernel := OnlyDeleted();
    kernel.NothingDelayed();
    ghost var deleted := kernel.lists;
    var started := kernel.StartScheduler(2, true, 3, true, 2);
    StartedElsewhere(deleted, kernel.lists, 2, 3, 2, 1);
  }

  method OnlyDeleted() returns (kernel: Kernel)
    requires 3 < MAX_PRIORITIES
    ensures fresh(kernel) && kernel.Valid() && !kernel.schedulerRunning && kernel.currentTask == 1
    ensures kernel.tcbs == map[1 := NewTcb(3)] && kernel.Time() == Clock(0, map[])
    ensures 1 in kernel.lists.generic && kernel.lists.generic[1] == Termination && kernel.tasksDeleted == 1
  {
    hide EpochShown, IsNew, IsMoved, Good, Lists.Consistent, Deadlines, Turns.Joins, Turns.Quits, Outranked, Orders;
    kernel := new Kernel();
    ghost var empty := kernel.lists;
    var passed, yieldRequired := kernel.Create(true, 1, 3);
    kernel.NothingDelayed();
    NewElsewhere(empty, kernel.lists, 3, 1, 0);
    ghost var created := kernel.lists;
    yieldRequired := kernel.Delete(1);
    MovedTo(created, kernel.lists, 1, Termination);
    assert Clock(0, map[]) == Next(Clock(0, map[]), Unblock(1));
  }

  /** A run that loses 256 ticks: they come while the scheduler is suspended, and the count of them ends where it
      was. */
  method PendedTicksLost(kernel: Kernel)
    requires kernel.Valid() && kernel.schedulerSuspended == 1 && kernel.pendedTicks == 0
         && kernel.currentTask in kernel.tcbs
    modifies kernel
    ensures kernel.Valid() && kernel.schedulerSuspended == 0 && kernel.Now() == old(kernel.Now())
  {
    hide Good, Deadlines, Lists.WakeAll, CaughtUp, Outranked, EpochShown;
    for ticks := 0 to 256
      invariant kernel.Valid() && kernel.schedulerSuspended == 1 && kernel.currentTask in kernel.tcbs
      invariant kernel.Time() == old(kernel.Time()) && kernel.pendedTicks == if ticks == 256 then 0 else ticks
      invariant kernel.currentNumberOfTasks == old(kernel.currentNumberOfTasks)
    {
      ghost var switchRequired, woken;
      switchRequired, woken := kernel.IncrementTick();
    }
    ghost var alreadyYielded, readied;
    alreadyYielded, readied := kernel.ResumeAll();
  }

  lemma RestedJoined(ls: Lists, joined: Lists, ls': Lists, tcbs: Tcbs, t: Task, owner: nat, id: ListId, wake: Tick)
    requires IsJoined(ls, joined, t, owner) && IsRested(joined, ls', tcbs, t, id, wake) && t in ls.generic
         && ls.generic[t].Ready?
    ensures IsRested(ls, ls', tcbs, t, id, wake)
  {
  }

  lemma EndOf(ls: Lists, id: ListId)
    requires ls.Consistent()
    ensures ls.Get(id).at <= |ls.Items(id)|
  {
  }

  lemma TurnKeepsPending(ls: Lists, ls': Lists, p: nat, t: Task)
    requires IsTurn(ls, ls', p, t)
    ensures ls'.Items(PendingReady) == ls.Items(PendingReady) && ls'.Items(Termination) == ls.Items(Termination)
  {
  }

  lemma OthersReady(ls: Lists, ls': Lists, tcbs: Tcbs, t: Task)
    requires IsMoved(ls, ls', t, Suspended) && PlacedIn(ls', tcbs, {}) && t in tcbs
    ensures (exists x :: x != t && x in ls.generic && ls.generic[x].Ready?) ==> SomeReady(ls')
    ensures (forall x :: x in tcbs && x != t ==> x in ls.generic && ls.generic[x] == Suspended) ==>
              forall x :: x in tcbs ==> x in ls'.generic && ls'.generic[x] == Suspended
  {
    hide Lists.Consistent;
    assert forall x ::
        x != t ==> (x in ls.generic <==> x in ls'.generic) && (x in ls.generic ==> ls'.generic[x] == ls.generic[x]);
    if x :| x != t && x in ls.generic && ls.generic[x].Ready? {
      ReadySome(ls', tcbs, x);
    }
  }

  lemma ReaperRuns(ls: Lists, tcbs: Tcbs, current: Task, t: Task)
    requires ls.Consistent() && t in ls.generic && ls.generic[t] == Termination
    requires current in tcbs && current in ls.generic && ls.generic[current].Ready? && current !in ls.event
    ensures var ls' := ls.RemoveGeneric(t);
            current in tcbs - {t} && current in ls'.generic && ls'.generic[current].Ready? && current !in ls'.event
  {
  }

  /** The wake time lies ahead by what is left of the increment. */
  lemma LeftToWait(tick: Tick, previous: Tick, increment: Tick)
    requires Minus(tick, previous) < increment
    ensures Plus(previous, increment) != tick
         && Minus(Plus(previous, increment), tick) == increment - Minus(tick, previous)
  {
  }

  /** With no task at all, resuming the scheduler finds nothing to do. */
  lemma NoTasksLeft(ls: Lists, tcbs: Tcbs, now: nat, due: map<Task, nat>)
    requires PlacedIn(ls, tcbs, {}) && |tcbs| == 0 && due.Keys <= tcbs.Keys
    ensures ls.Items(PendingReady) == [] && ls == ls.WakeAll([], tcbs) && CaughtUp(ls, due, [], now)
         && due == Left(due, [])
    ensures Resumption(ls.Items(PendingReady), 0) == []
  {
    assert tcbs == map[];
    NonePended(ls);
  }

  lemma NothingDue(ls: Lists, due: map<Task, nat>, readied: seq<Task>, now: nat)
    requires CaughtUp(ls, due, readied, now) && (forall t :: !PendedIn(ls, t)) && forall t :: t in due ==> due[t] > now
    ensures readied == []
  {
    SomeElement(readied);
  }

  class Kernel {
    var lists: Lists
    var tcbs: Tcbs
    var currentTask: Task
    var schedulerRunning: bool
    var delayedList: nat
    var tickCount: Tick
    var numOfOverflows: nat
    var nextTaskUnblockTime: Tick
    var pendedTicks: nat
    var schedulerSuspended: nat
    var topReadyPriority: nat
    var yieldPending: bool
    var currentNumberOfTasks: nat
    var tasksDeleted: nat

    /** How often the tick counter has wrapped, and the clock time of the last wrap. */
    ghost var epoch: nat
    ghost var epochStart: nat

    /** The unbounded clock: the ticks processed since the scheduler started. */
    ghost function Now(): nat
      reads this
    {
      epochStart + tickCount
    }

    /** The moment at which each delayed task is due. */
    ghost function Due(): map<Task, nat>
      reads this
    {
      Deadlines(lists, tcbs, delayedList, epochStart)
    }

    ghost function Time(): Clock
      reads this
    {
      Clock(Now(), Due())
    }

    /** The invariant of the kernel apart from what suspension of the scheduler leaves pending. */
    ghost predicate Core()
      reads this
    {
      && Good(lists, tcbs, {}, topReadyPriority, delayedList, tickCount, nextTaskUnblockTime)
      && EpochShown(epoch, epochStart, numOfOverflows)
      && currentNumberOfTasks == |tcbs| && tasksDeleted == |lists.Items(Termination)|
    }

    /** What is pending while the scheduler is suspended is settled once it is not. */
    ghost predicate Valid()
      reads this
    {
      Core() && (schedulerSuspended == 0 ==> pendedTicks == 0 && lists.Items(PendingReady) == [])
    }

    /** The same, but for the items of the running task, which may be between lists. */
    ghost predicate Leaving()
      reads this
    {
      && Good(lists, tcbs, {currentTask}, topReadyPriority, delayedList, tickCount, nextTaskUnblockTime)
      && EpochShown(epoch, epochStart, numOfOverflows)
      && currentNumberOfTasks == |tcbs| && tasksDeleted == |lists.Items(Termination)|
      && (schedulerSuspended == 0 ==> pendedTicks == 0 && lists.Items(PendingReady) == [])
    }

    /** `prvAddTaskToReadyList`. */
    method AddTaskToReadyList(t: Task)
      requires lists.Consistent() && t in tcbs && t !in lists.generic
      modifies this`lists, this`topReadyPriority
      ensures lists == old(lists).AppendGeneric(Ready(tcbs[t].priority), t)
      ensures topReadyPriority == Max(old(topReadyPriority), tcbs[t].priority)
    {
      if tcbs[t].priority > topReadyPriority {
        topReadyPriority := tcbs[t].priority;
      }
      lists := lists.AppendGeneric(Ready(tcbs[t].priority), t);
    }

    /** `prvResetNextTaskUnblockTime`. */
    method ResetNextTaskUnblockTime()
      requires PlacedIn(lists, tcbs, {}) && (forall k :: Sorted(WakeTimes(lists.Items(Delayed(k)), tcbs)))
      modifies this`nextTaskUnblockTime
      ensures forall t :: t in lists.generic && t in tcbs && lists.generic[t] == Delayed(delayedList) ==>
                nextTaskUnblockTime <= tcbs[t].wakeTime
      ensures nextTaskUnblockTime == MAX_DELAY
           || exists t ::
                t in tcbs && lists.Contains(Delayed(delayedList), t) && nextTaskUnblockTime == tcbs[t].wakeTime
    {
      if lists.Items(Delayed(delayedList)) == [] {
        nextTaskUnblockTime := MAX_DELAY;
      } else {
        var t := lists.Items(Delayed(delayedList))[0];
        assert lists.Contains(Delayed(delayedList), t);
        nextTaskUnblockTime := tcbs[t].wakeTime;
      }
      HeadIsFirst(lists, tcbs, delayedList);
    }

    // ----- The tick interrupt -----

    /** `xTaskIncrementTick`. While the scheduler is suspended the tick is counted, which keeps clock and count together
        in step with the ticks unless it is the 256th one pended. */
    method IncrementTick() returns (switchRequired: bool, ghost woken: seq<Task>)
      requires Core() && currentTask in tcbs
      modifies this`lists, this`tickCount, this`numOfOverflows, this`delayedList, this`nextTaskUnblockTime,
               this`topReadyPriority, this`pendedTicks, this`epoch, this`epochStart
      ensures Core()
      ensures Due() == Left(old(Due()), woken)
      ensures old(schedulerSuspended) > 0 ==>
                && woken == [] && lists == old(lists) && Time() == old(Time()) && switchRequired == yieldPending
                && pendedTicks == (if old(pendedTicks) == MAX_UBASE then 0 else old(pendedTicks) + 1)
                && (Now() + pendedTicks == old(Now()) + old(pendedTicks) + 1 <==> old(pendedTicks) != MAX_UBASE)
      ensures old(schedulerSuspended) == 0 ==>
                && Now() == old(Now()) + 1 && pendedTicks == old(pendedTicks)
                && (forall t :: t in woken <==> t in old(Due()) && old(Due())[t] == Now())
                && (forall t :: t in woken ==> t in old(lists).generic && t in tcbs)
                && lists == old(lists).WakeAll(woken, tcbs) && Time() == Next(old(Time()), Tick)
                && Turns.Joins(old(lists), lists, woken, tcbs)
                && switchRequired == (yieldPending || Shared(lists, tcbs, currentTask)
                                      || Outranked(woken, tcbs, currentTask))
    {
      hide EpochShown, Good, Lists.Consistent, Lists.WakeAll, Deadlines, Turns.Joins;
      switchRequired, woken := false, [];
      if schedulerSuspended == 0 {
        switchRequired, woken := ProcessTick();
      } else {
        pendedTicks := if pendedTicks == MAX_UBASE then 0 else pendedTicks + 1;
        assert Left(old(Due()), []) == old(Due());
      }
      if yieldPending {
        switchRequired := true;
      }
    }

    /** The part of `xTaskIncrementTick` for a scheduler that is not suspended. */
    method ProcessTick() returns (switchRequired: bool, ghost woken: seq<Task>)
      requires Core() && currentTask in tcbs
      modifies this`lists, this`tickCount, this`numOfOverflows, this`delayedList, this`nextTaskUnblockTime,
               this`topReadyPriority, this`epoch, this`epochStart
      ensures Core() && Now() == old(Now()) + 1 && Due() == Left(old(Due()), woken) && Time() == Next(old(Time()), Tick)
      ensures forall t :: t in woken <==> t in old(Due()) && old(Due())[t] == Now()
      ensures forall t :: t in woken ==> t in old(lists).generic && t in tcbs
      ensures lists == old(lists).WakeAll(woken, tcbs)
      ensures switchRequired == (Shared(lists, tcbs, currentTask) || Outranked(woken, tcbs, currentTask))
      ensures Turns.Joins(old(lists), lists, woken, tcbs)
    {
      hide EpochShown, PlacedIn, ToppedBy, TimedBy, Lists.Consistent, Lists.WakeAll, Deadlines, Turns.Joins;
      switchRequired, woken := false, [];
      AdvanceClock();
      NoneWoken(lists, tcbs);
      Turns.JoinsNone(lists, lists, tcbs);
      NoneDue(lists, tcbs, delayedList, tickCount, nextTaskUnblockTime);
      if tickCount >= nextTaskUnblockTime {
        switchRequired, woken := WakeDue();
      }
      TickDeadlines(old(lists), lists, tcbs, woken, old(delayedList), delayedList, old(epochStart), epochStart,
                    old(tickCount), tickCount, nextTaskUnblockTime);
      LeftIsNext(old(Time()), woken);
      if Shared(lists, tcbs, currentTask) {
        switchRequired := true;
      }
    }

    /** The tick count moves on, and the delayed lists are swapped if it wraps. */
    method AdvanceClock()
      requires Core()
      modifies this`tickCount, this`numOfOverflows, this`delayedList, this`nextTaskUnblockTime, this`epoch,
          this`epochStart
      ensures Ticked(old(lists), old(delayedList), delayedList, old(epochStart), epochStart, old(tickCount), tickCount)
      ensures Good(lists, tcbs, {}, topReadyPriority, delayedList, tickCount - 1, nextTaskUnblockTime)
      ensures EpochShown(epoch, epochStart, numOfOverflows)
    {
      hide PlacedIn, Lists.Consistent;
      tickCount := Plus(tickCount, 1);
      if tickCount == 0 {
        NoneLeft(lists, tcbs, delayedList, old(tickCount), nextTaskUnblockTime);
        SwitchDelayedLists();
      }
    }

    /** `taskSWITCH_DELAYED_LISTS`; the current list is empty, as its assertion says. */
    method SwitchDelayedLists()
      requires PlacedIn(lists, tcbs, {}) && (forall k :: Sorted(WakeTimes(lists.Items(Delayed(k)), tcbs)))
      requires lists.Items(Delayed(delayedList)) == [] && delayedList < 2
      requires EpochShown(epoch, epochStart, numOfOverflows)
      modifies this`delayedList, this`numOfOverflows, this`nextTaskUnblockTime, this`epoch, this`epochStart
      ensures delayedList == 1 - old(delayedList) && epochStart == old(epochStart) + M
      ensures EpochShown(epoch, epochStart, numOfOverflows)
      ensures TimedBy(lists, tcbs, delayedList, -1, nextTaskUnblockTime)
    {
      hide PlacedIn, Lists.Consistent;
      NextEpoch(epoch, epochStart, numOfOverflows);
      hide EpochShown;
      delayedList, numOfOverflows := 1 - delayedList, (numOfOverflows + 1) % OVERFLOW_COUNTS;
      epoch, epochStart := epoch + 1, epochStart + M;
      ResetNextTaskUnblockTime();
    }

    /** The loop of `xTaskIncrementTick` that readies the tasks whose time has come. */
    method WakeDue() returns (switchRequired: bool, ghost woken: seq<Task>)
      requires currentTask in tcbs
      requires Good(lists, tcbs, {}, topReadyPriority, delayedList, tickCount - 1, nextTaskUnblockTime)
      modifies this`lists, this`nextTaskUnblockTime, this`topReadyPriority
      ensures Good(lists, tcbs, {}, topReadyPriority, delayedList, tickCount, nextTaskUnblockTime)
      ensures forall t ::
                t in woken <==>
                    t in tcbs && old(lists).Contains(Delayed(delayedList), t) && tcbs[t].wakeTime == tickCount
      ensures forall t :: t in woken ==> t in old(lists).generic
      ensures lists == old(lists).WakeAll(woken, tcbs) && lists.Get(Termination) == old(lists).Get(Termination)
      ensures switchRequired <==> Outranked(woken, tcbs, currentTask)
      ensures Turns.Joins(old(lists), lists, woken, tcbs)
    {
      hide Good, EpochShown, PlacedIn, ToppedBy, TimedBy, Lists.Consistent, Lists.Wake, Lists.WakeAll, Turns.Joins,
          Outranked;
      NobodyOutranks(tcbs, currentTask);
      DueStart(lists, tcbs, topReadyPriority, delayedList, tickCount - 1, nextTaskUnblockTime);
      ghost var before, due, i := lists, lists.Items(Delayed(delayedList)), 0;
      switchRequired, woken := false, [];
      while true
        invariant i <= |due| && woken == due[..i] && lists.Items(Delayed(delayedList)) == due[i..]
        invariant currentTask in tcbs
        invariant Good(lists, tcbs, {}, topReadyPriority, delayedList, tickCount - 1, nextTaskUnblockTime)
        invariant forall j ::
                  0 <= j < i ==> due[j] in tcbs && due[j] in before.generic && tcbs[due[j]].wakeTime == tickCount
        invariant lists == before.WakeAll(woken, tcbs) && lists.Get(Termination) == before.Get(Termination)
        invariant switchRequired <==> Outranked(woken, tcbs, currentTask)
        invariant Turns.Joins(before, lists, woken, tcbs)
        decreases |due| - i
      {
        if lists.Items(Delayed(delayedList)) == [] {
          DueStop(lists, tcbs, topReadyPriority, delayedList, tickCount, nextTaskUnblockTime, MAX_DELAY);
          nextTaskUnblockTime := MAX_DELAY;
          break;
        }
        var t := lists.Items(Delayed(delayedList))[0];
        GoodDue(before, woken, lists, tcbs, topReadyPriority, delayedList, tickCount, nextTaskUnblockTime);
        var itemValue := tcbs[t].wakeTime;
        if tickCount < itemValue {
          DueStop(lists, tcbs, topReadyPriority, delayedList, tickCount, nextTaskUnblockTime, itemValue);
          nextTaskUnblockTime := itemValue;
          break;
        }
        ReadyTask(t);
        OneOutranks(woken, t, tcbs, currentTask);
        if tcbs[t].priority >= tcbs[currentTask].priority {
          switchRequired := true;
        }
        woken, i := woken + [t], i + 1;
      }
      DueExactly(before, tcbs, delayedList, tickCount, i);
    }

    /** Remove a task from its list and from any event list, and add it to its ready list. */
    method ReadyTask(t: Task)
      requires lists.Consistent() && t in lists.generic && t in tcbs
      modifies this`lists, this`topReadyPriority
      ensures lists == old(lists).Wake(t, tcbs) && topReadyPriority == Max(old(topReadyPriority), tcbs[t].priority)
    {
      lists := lists.RemoveGeneric(t);
      lists := lists.RemoveEvent(t);
      AddTaskToReadyList(t);
    }

    // ----- Suspending the scheduler -----

    /** `vTaskSuspendAll`. */
    method SuspendAll()
      requires schedulerSuspended < MAX_UBASE
      modifies this`schedulerSuspended
      ensures schedulerSuspended == old(schedulerSuspended) + 1
    {
      schedulerSuspended := schedulerSuspended + 1;
    }

    /** `xTaskResumeAll`. The outermost one readies every pended task and every task that came due while
        the scheduler was suspended, and no other; a yield it asks for is a later `SwitchContext`. */
    method ResumeAll() returns (alreadyYielded: bool, ghost readied: seq<Task>)
      requires Valid() && schedulerSuspended > 0
      requires if currentNumberOfTasks > 0 then currentTask in tcbs else pendedTicks == 0
      modifies this`lists, this`tickCount, this`numOfOverflows, this`delayedList, this`nextTaskUnblockTime,
               this`topReadyPriority, this`pendedTicks, this`epoch, this`epochStart, this`schedulerSuspended,
                   this`yieldPending
      ensures Valid() && schedulerSuspended == old(schedulerSuspended) - 1
      ensures Now() + pendedTicks == old(Now()) + old(pendedTicks)
      ensures old(pendedTicks) == 0 ==> delayedList == old(delayedList)
      ensures Time() == After(old(Time()), if schedulerSuspended > 0 then []
                else Resumption(old(lists).Items(PendingReady), old(pendedTicks)))
      ensures schedulerSuspended > 0 ==>
                && pendedTicks == old(pendedTicks) && lists == old(lists) && !alreadyYielded
                && yieldPending == old(yieldPending)
      ensures schedulerSuspended == 0 ==>
                && pendedTicks == 0 && lists.Items(PendingReady) == []
                && alreadyYielded == (yieldPending && currentNumberOfTasks > 0)
                && CaughtUp(old(lists), old(Due()), readied, Now())
                && lists == old(lists).WakeAll(readied, tcbs)
                && Turns.Joins(old(lists), lists, readied, tcbs)
                && yieldPending == (old(yieldPending) || Outranked(readied, tcbs, currentTask)
                                    || (old(pendedTicks) > 0 && Shared(lists, tcbs, currentTask)))
      ensures Due() == Left(old(Due()), readied)
      ensures schedulerSuspended == 0 && currentTask in tcbs ==>
                && (forall t :: t in readied && t in tcbs && tcbs[t].priority >= tcbs[currentTask].priority ==>
                      yieldPending)
                && (yieldPending && !old(yieldPending) && old(pendedTicks) == 0 ==>
                      exists t :: t in readied && t in tcbs && tcbs[t].priority >= tcbs[currentTask].priority)
    {
      hide EpochShown, PlacedIn, ToppedBy, TimedBy, Lists.Consistent, Lists.WakeAll, Lists.Wake, Resumption, CaughtUp,
          Turns.Joins, Shared, Outranked;
      ConsistentOf(lists, tcbs, {});
      PendedAre(lists);
      Turns.JoinsNone(lists, lists, tcbs);
      DeadlinesAhead(lists, tcbs, delayedList, epochStart, tickCount, nextTaskUnblockTime);
      alreadyYielded, readied := false, [];
      schedulerSuspended := schedulerSuspended - 1;
      if schedulerSuspended == 0 {
        if currentNumberOfTasks > 0 {
          readied := DrainPending();
          ghost var pended := readied;
          readied := CatchUp(old(lists), old(Due()), pended);
          CaughtUpIsAfter(old(lists), old(Time()), pended, old(pendedTicks), readied);
          OutrankedToo(pended, readied, tcbs, currentTask);
          OutrankedBy(readied, tcbs, currentTask);
          if yieldPending {
            alreadyYielded := true;
          }
        } else {
          NoTasksLeft(lists, tcbs, Now(), Due());
          NobodyOutranks(tcbs, currentTask);
        }
      }
    }

    /** The loop of `xTaskResumeAll` over the pending ready list. */
    method DrainPending() returns (ghost readied: seq<Task>)
      requires Core() && currentTask in tcbs
      modifies this`lists, this`topReadyPriority, this`yieldPending
      ensures Core() && readied == old(lists).Items(PendingReady) && lists.Items(PendingReady) == []
      ensures forall t :: t in readied ==> t in old(lists).generic && t in tcbs
      ensures lists == old(lists).WakeAll(readied, tcbs)
      ensures yieldPending == (old(yieldPending) || Outranked(readied, tcbs, currentTask))
      ensures Turns.Joins(old(lists), lists, readied, tcbs)
    {
      hide EpochShown, PlacedIn, ToppedBy, TimedBy, Lists.Consistent, Lists.WakeAll, Lists.Wake, Turns.Joins, Outranked;
      NobodyOutranks(tcbs, currentTask);
      ghost var before, pended, i := lists, lists.Items(PendingReady), 0;
      readied := [];
      NoneWoken(lists, tcbs);
      Turns.JoinsNone(lists, lists, tcbs);
      ConsistentOf(lists, tcbs, {});
      hide Good;
      while lists.Items(PendingReady) != []
        invariant Core() && currentTask in tcbs
        invariant i <= |pended| && readied == pended[..i] && lists.Items(PendingReady) == pended[i..]
        invariant before.Consistent() && forall t :: t in readied ==> t in before.generic && t in tcbs
        invariant lists == before.WakeAll(readied, tcbs) && Turns.Joins(before, lists, readied, tcbs)
        invariant yieldPending == (old(yieldPending) || Outranked(readied, tcbs, currentTask))
        decreases |pended| - i
      {
        var t := lists.Items(PendingReady)[0];
        GoodDrain(before, readied, lists, tcbs, topReadyPriority, delayedList, tickCount, nextTaskUnblockTime);
        WokenToo(before, readied, lists, t, tcbs);
        ReadyWaiter(t);
        OneOutranks(readied, t, tcbs, currentTask);
        if tcbs[t].priority >= tcbs[currentTask].priority {
          yieldPending := true;
        }
        readied, i := readied + [t], i + 1;
      }
    }

    /** The loop of `xTaskResumeAll` that processes the ticks missed while the scheduler was suspended. */
    method CatchUp(ghost before: Lists, ghost due: map<Task, nat>, ghost pended: seq<Task>)
      returns (ghost readied: seq<Task>)
      requires Core() && currentTask in tcbs && schedulerSuspended == 0 && lists.Items(PendingReady) == []
      requires before.Consistent() && forall t :: t in pended ==> t in before.generic && t in tcbs
      requires forall t :: t in pended <==> PendedIn(before, t)
      requires lists == before.WakeAll(pended, tcbs)
      requires due == Deadlines(before, tcbs, delayedList, epochStart) && forall t :: t in due ==> due[t] > Now()
      requires (Outranked(pended, tcbs, currentTask) ==> yieldPending) && Turns.Joins(before, lists, pended, tcbs)
      modifies this`lists, this`tickCount, this`numOfOverflows, this`delayedList, this`nextTaskUnblockTime,
               this`topReadyPriority, this`pendedTicks, this`epoch, this`epochStart, this`yieldPending
      ensures Core() && lists.Items(PendingReady) == [] && pendedTicks == 0 && Now() == old(Now()) + old(pendedTicks)
      ensures old(pendedTicks) == 0 ==> delayedList == old(delayedList)
      ensures yieldPending == (old(yieldPending) || Outranked(readied, tcbs, currentTask)
                               || (old(pendedTicks) > 0 && Shared(lists, tcbs, currentTask)))
      ensures Turns.Joins(before, lists, readied, tcbs) && forall t :: t in pended ==> t in readied
      ensures forall t :: t in readied ==> t in before.generic && t in tcbs
      ensures lists == before.WakeAll(readied, tcbs) && CaughtUp(before, due, readied, Now())
      ensures Due() == Left(due, readied)
    {
      hide EpochShown, Good, PlacedIn, Lists.Consistent, Lists.WakeAll, Lists.Wake, CaughtUp, Deadlines, Turns.Joins,
          Shared;
      readied := pended;
      CatchUpStart(before, due, pended, Now());
      WakeDeadlines(before, pended, tcbs, delayedList, epochStart);
      while pendedTicks > 0
        invariant Core() && currentTask in tcbs && schedulerSuspended == 0 && lists.Items(PendingReady) == []
        invariant Now() + pendedTicks == old(Now()) + old(pendedTicks)
        invariant pendedTicks == old(pendedTicks) ==> delayedList == old(delayedList)
        invariant forall t :: t in readied ==> t in before.generic && t in tcbs
        invariant yieldPending == (old(yieldPending) || Outranked(readied, tcbs, currentTask)
                                   || (pendedTicks < old(pendedTicks) && Shared(lists, tcbs, currentTask)))
        invariant Turns.Joins(before, lists, readied, tcbs) && pendedTicks <= old(pendedTicks)
        invariant forall t :: t in pended ==> t in readied
        invariant lists == before.WakeAll(readied, tcbs) && CaughtUp(before, due, readied, Now())
        invariant Due() == Left(due, readied)
        decreases pendedTicks
      {
        readied := MissedTick(before, due, readied);
      }
    }

    /** One trip round that loop. */
    method MissedTick(ghost before: Lists, ghost due: map<Task, nat>, ghost done: seq<Task>)
      returns (ghost readied: seq<Task>)
      requires Core() && currentTask in tcbs && schedulerSuspended == 0 && pendedTicks > 0
           && lists.Items(PendingReady) == []
      requires before.Consistent() && forall t :: t in done ==> t in before.generic && t in tcbs
      requires lists == before.WakeAll(done, tcbs) && CaughtUp(before, due, done, Now()) && Due() == Left(due, done)
      requires (Outranked(done, tcbs, currentTask) ==> yieldPending) && Turns.Joins(before, lists, done, tcbs)
      modifies this`lists, this`tickCount, this`numOfOverflows, this`delayedList, this`nextTaskUnblockTime,
               this`topReadyPriority, this`pendedTicks, this`epoch, this`epochStart, this`yieldPending
      ensures Core() && lists.Items(PendingReady) == [] && pendedTicks == old(pendedTicks) - 1
           && Now() == old(Now()) + 1
      ensures forall t :: t in readied ==> t in before.generic && t in tcbs
      ensures lists == before.WakeAll(readied, tcbs) && CaughtUp(before, due, readied, Now())
           && Due() == Left(due, readied)
      ensures yieldPending == (old(yieldPending) || Outranked(readied, tcbs, currentTask)
                               || Shared(lists, tcbs, currentTask))
      ensures Turns.Joins(before, lists, readied, tcbs) && forall t :: t in done ==> t in readied
      ensures Shared(old(lists), tcbs, currentTask) ==> Shared(lists, tcbs, currentTask)
    {
      hide EpochShown, Good, PlacedIn, Lists.Consistent, Lists.WakeAll, Lists.Wake, CaughtUp, Deadlines, Left,
          Turns.Joins;
      ghost var ls, now := lists, Now();
      GoodIndices(lists, tcbs, {}, topReadyPriority, delayedList, tickCount, nextTaskUnblockTime);
      var switchRequired, woken := IncrementTick();
      GoodIndices(lists, tcbs, {}, topReadyPriority, delayedList, tickCount, nextTaskUnblockTime);
      Turns.JoinsMore(before, ls, lists, done, woken, tcbs);
      if Shared(ls, tcbs, currentTask) {
        SharedMore(ls, lists, woken, tcbs, currentTask);
      }
      WakePendsNone(ls, woken, tcbs);
      CatchUpStep(before, due, done, now, woken);
      LeftTwice(due, done, woken);
      WakeMore(before, done, woken, tcbs);
      OutrankedMore(done, woken, tcbs, currentTask);
      readied := done + woken;
      if switchRequired {
        yieldPending := true;
      }
      pendedTicks := pendedTicks - 1;
    }

    /** Remove a task from its event list and from its other list, and add it to its ready list. */
    method ReadyWaiter(t: Task)
      requires lists.Consistent() && t in lists.generic && t in tcbs
      modifies this`lists, this`topReadyPriority
      ensures lists == old(lists).Wake(t, tcbs) && topReadyPriority == Max(old(topReadyPriority), tcbs[t].priority)
    {
      RemovesCommute(lists, t);
      lists := lists.RemoveEvent(t);
      lists := lists.RemoveGeneric(t);
      AddTaskToReadyList(t);
    }

    // ----- Blocking -----

    /** `prvAddCurrentTaskToDelayedList`. */
    method AddCurrentTaskToDelayedList(timeToWake: Tick)
      requires Leaving() && currentTask in tcbs && currentTask !in lists.generic && timeToWake != tickCount
      modifies this`lists, this`tcbs, this`nextTaskUnblockTime
      ensures Valid() && tcbs == old(tcbs)[currentTask := old(tcbs)[currentTask].(wakeTime := timeToWake)]
      ensures IsDelayed(old(lists), lists, tcbs, currentTask, if timeToWake < tickCount then 1 - delayedList
                else delayedList, timeToWake)
      ensures Time() == Next(old(Time()), Block(currentTask, Minus(timeToWake, tickCount)))
    {
      hide EpochShown, Good, Lists.Consistent, Deadlines, IsDelayed;
      ListsReady();
      ghost var which, ls, tcbs0 := if timeToWake < tickCount then 1 - delayedList else delayedList, lists, tcbs;
      tcbs := tcbs[currentTask := tcbs[currentTask].(wakeTime := timeToWake)];
      if timeToWake < tickCount {
        InsertDelayed(1 - delayedList, timeToWake);
      } else {
        InsertDelayed(delayedList, timeToWake);
        if timeToWake < nextTaskUnblockTime {
          nextTaskUnblockTime := timeToWake;
        }
      }
      GoodBlock(ls, tcbs0, topReadyPriority, delayedList, tickCount, old(nextTaskUnblockTime), currentTask, timeToWake,
          lists, which);
      DelayedFacts(ls, lists, tcbs, currentTask, which, timeToWake);
    }

    /** `vListInsert` of the running task's generic item. */
    method InsertDelayed(which: nat, timeToWake: Tick)
      requires lists.Consistent() && currentTask !in lists.generic
      modifies this`lists
      ensures IsDelayed(old(lists), lists, tcbs, currentTask, which, timeToWake)
    {
      hide Lists.Consistent, Lists.InsertGeneric;
      var id := Delayed(which);
      lists := lists.InsertGeneric(id, Place(WakeTimes(lists.Items(id), tcbs), timeToWake), currentTask);
    }

    lemma ListsReady()
      requires Leaving()
      ensures lists.Consistent() && delayedList < 2
    {
    }

    /** What the blocking calls have in common: the running task leaves its ready list, for the suspended
        list if it waits without a time limit and for a delayed list if not. */
    method BlockCurrent(indefinitely: bool, timeToWake: Tick)
      requires Leaving() && delayedList < 2
      requires currentTask in tcbs && currentTask in lists.generic && lists.generic[currentTask].Ready?
      requires indefinitely || timeToWake != tickCount
      modifies this`lists, this`tcbs, this`nextTaskUnblockTime
      ensures Valid() && IsRested(old(lists), lists, tcbs, currentTask, RestingPlace(indefinitely, timeToWake),
                timeToWake)
      ensures lists.event == old(lists).event
           && forall id: ListId :: !id.ForGeneric() ==> lists.Get(id) == old(lists).Get(id)
      ensures currentTask in lists.generic && (lists.generic[currentTask].Suspended? <==> indefinitely)
      ensures indefinitely ==> tcbs == old(tcbs) && Time() == old(Time())
      ensures !indefinitely ==>
                && Time() == Next(old(Time()), Block(currentTask, Minus(timeToWake, tickCount)))
                && tcbs == old(tcbs)[currentTask := old(tcbs)[currentTask].(wakeTime := timeToWake)]
    {
      hide EpochShown, Good, Lists.Consistent, Deadlines, IsDelayed, Lists.RemoveGeneric, Lists.AppendGeneric, IsRested;
      ListsReady();
      ghost var ls := lists;
      LeaveReadyList();
      if indefinitely {
        SuspendCurrent();
        RestedSuspended(ls, lists, tcbs, currentTask, timeToWake);
      } else {
        AddCurrentTaskToDelayedList(timeToWake);
        RestedDelayed(ls, lists, tcbs, currentTask, if timeToWake < tickCount then 1 - delayedList
            else delayedList, timeToWake);
      }
    }

    /** The list for a task that blocks. */
    ghost function RestingPlace(indefinitely: bool, timeToWake: Tick): ListId
      requires delayedList < 2
      reads this
    {
      if indefinitely then Suspended else Delayed(if timeToWake < tickCount then 1 - delayedList else delayedList)
    }

    /** `uxListRemove` of the running task's generic item. */
    method LeaveReadyList()
      requires Leaving() && lists.Consistent() && currentTask in tcbs && currentTask in lists.generic
           && lists.generic[currentTask].Ready?
      modifies this`lists
      ensures Leaving() && Time() == old(Time()) && lists == old(lists).RemoveGeneric(currentTask)
    {
      hide EpochShown, PlacedIn, ToppedBy, TimedBy, Lists.Consistent, Deadlines;
      GoodIndices(lists, tcbs, {currentTask}, topReadyPriority, delayedList, tickCount, nextTaskUnblockTime);
      GoodRemoveGeneric(lists, tcbs, {currentTask}, topReadyPriority, delayedList, tickCount, nextTaskUnblockTime,
          currentTask);
      assert {currentTask} + {currentTask} == {currentTask};
      lists := lists.RemoveGeneric(currentTask);
      NoDeadline(old(lists), tcbs, lists, tcbs, delayedList, epochStart, currentTask);
      NotDelayed(old(lists), tcbs, delayedList, epochStart, currentTask);
    }

    /** `vListInsertEnd` of the running task's generic item on the list of suspended tasks. */
    method SuspendCurrent()
      requires Leaving() && currentTask in tcbs && currentTask !in lists.generic && lists.Consistent()
      modifies this`lists
      ensures Valid() && Time() == old(Time()) && lists == old(lists).AppendGeneric(Suspended, currentTask)
    {
      hide EpochShown, PlacedIn, ToppedBy, TimedBy, Lists.Consistent, Deadlines;
      GoodPark(lists, tcbs, {currentTask}, topReadyPriority, delayedList, tickCount, nextTaskUnblockTime, currentTask,
          Suspended);
      assert {currentTask} - {currentTask} == {};
      lists := lists.AppendGeneric(Suspended, currentTask);
      SuspendedAside(old(lists), lists, tcbs, delayedList, epochStart, currentTask);
    }

    /** The body of `vTaskDelay`, between its calls of `vTaskSuspendAll` and `xTaskResumeAll`. */
    method DelayCurrent(ticksToDelay: Tick)
      requires Valid() && Running() && 0 < ticksToDelay
      modifies this`lists, this`tcbs, this`nextTaskUnblockTime
      ensures Valid() && Time() == Next(old(Time()), Block(currentTask, ticksToDelay))
      ensures Delaying(old(lists), old(tcbs), Plus(tickCount, ticksToDelay))
    {
      hide EpochShown, Good, Lists.Consistent, Deadlines, IsRested, Turns.Leaves;
      Departing();
      ghost var ls := lists;
      BlockCurrent(false, Plus(tickCount, ticksToDelay));
      RestedTurns(ls, lists, tcbs, currentTask, RestingPlace(false, Plus(tickCount, ticksToDelay)),
                  Plus(tickCount, ticksToDelay));
    }

    /** How a task that delays itself leaves the kernel: nothing has changed but its wake time and its place. */
    ghost predicate Delaying(before: Lists, tcbs0: Tcbs, wake: Tick)
      reads this
    {
      && delayedList < 2 && currentTask in tcbs0 && tcbs == tcbs0[currentTask := tcbs0[currentTask].(wakeTime := wake)]
      && IsRested(before, lists, tcbs, currentTask, RestingPlace(false, wake), wake)
      && before.generic[currentTask].Ready?
      && Turns.Leaves(before, lists, currentTask, before.generic[currentTask].priority)
      && lists.event == before.event && forall id: ListId :: !id.ForGeneric() ==> lists.Get(id) == before.Get(id)
    }

    /** The body of `vTaskDelayUntil`: `previous` is the moment that the stored wake time stands for. What has passed
        since is seen modulo the counter. */
    method DelayCurrentUntil(previousWakeTime: Tick, timeIncrement: Tick, ghost previous: nat)
      returns (shouldDelay: bool, timeToWake: Tick)
      requires Valid() && Running() && 0 < timeIncrement
      requires previousWakeTime == Wrap(previous) && previous <= Now()
      modifies this`lists, this`tcbs, this`nextTaskUnblockTime
      ensures Valid() && timeToWake == Wrap(previous + timeIncrement)
      ensures shouldDelay <==> Wrap(Now() - previous) < timeIncrement
      ensures Time() == if shouldDelay
                then Next(old(Time()), Block(currentTask, timeIncrement - Wrap(Now() - previous))) else old(Time())
      ensures Now() < previous + M ==>
                && (shouldDelay <==> Now() < previous + timeIncrement)
                && (shouldDelay ==> Due() == old(Due())[currentTask := previous + timeIncrement])
      ensures if shouldDelay then Delaying(old(lists), old(tcbs), timeToWake)
                else lists == old(lists) && tcbs == old(tcbs)
    {
      hide EpochShown, Good, Lists.Consistent, Deadlines, Wrap, Epoch, IsRested, Turns.Leaves;
      CountersShowTime();
      Elapsed(previous, Now());
      Advance(previous, timeIncrement);
      shouldDelay, timeToWake := DelayUntil(tickCount, previousWakeTime, timeIncrement);
      if shouldDelay {
        LeftToWait(tickCount, previousWakeTime, timeIncrement);
        Departing();
        ghost var ls := lists;
        BlockCurrent(false, timeToWake);
        RestedTurns(ls, lists, tcbs, currentTask, RestingPlace(false, timeToWake), timeToWake);
      }
    }

    /** The task that calls the kernel is ready to run and waits on nothing. */
    ghost predicate Running()
      reads this
    {
      currentTask in tcbs && currentTask in lists.generic && lists.generic[currentTask].Ready?
          && currentTask !in lists.event
    }

    lemma Departing()
      requires Valid()
      ensures Leaving() && lists.Consistent() && delayedList < 2
    {
    }

    /** The tasks with a deadline are those on a delayed list, and every deadline lies ahead. */
    lemma DelayedAreDue()
      requires Core()
      ensures forall t :: t in Due() <==> t in lists.generic && lists.generic[t].Delayed?
      ensures forall t :: t in Due() ==> Now() < Due()[t]
    {
      DeadlinesAhead(lists, tcbs, delayedList, epochStart, tickCount, nextTaskUnblockTime);
      GoodIndices(lists, tcbs, {}, topReadyPriority, delayedList, tickCount, nextTaskUnblockTime);
      hide EpochShown, Good, DeadlineIn;
    }

    /** Without a deadline no task is delayed. */
    lemma NothingDelayed()
      requires Core() && Due() == map[]
      ensures lists.Items(Delayed(delayedList)) == [] && forall t :: t in lists.generic ==> !lists.generic[t].Delayed?
    {
      hide EpochShown;
      if lists.Items(Delayed(delayedList)) != [] {
        HeadPlaced(lists, tcbs, delayedList);
      }
      DelayedAreDue();
    }

    /** The list lengths account for every task, deleted ones included until they are reaped. */
    lemma TaskConservation()
      requires Core()
      ensures Lengths(lists, GenericLists(MAX_PRIORITIES)) == currentNumberOfTasks
      ensures tasksDeleted == |lists.Items(Termination)|
    {
      Conservation(lists, tcbs);
    }

    /** The kernel's counters show the unbounded clock. */
    lemma CountersShowTime()
      requires Core()
      ensures tickCount == Wrap(Now()) && numOfOverflows == Epoch(Now()) % OVERFLOW_COUNTS && epoch == Epoch(Now())
    {
      hide Good;
      SplitUnique(Now(), epoch, tickCount);
    }

    // ----- Event lists -----

    /** `vTaskPlaceOnEventList`: the running task joins the event list in the order of the event item
        values, after those equal to its own, and blocks. */
    method PlaceOnEventList(owner: nat, ticksToWait: Tick)
      requires Valid() && Running() && 0 < ticksToWait
      modifies this`lists, this`tcbs, this`nextTaskUnblockTime
      ensures Valid() && Waiting(old(lists), old(tcbs), old(Time()), owner, Indefinite(ticksToWait), ticksToWait)
      ensures tcbs[currentTask].eventValue == old(tcbs)[currentTask].eventValue
      ensures INCLUDE_VTASK_SUSPEND && ticksToWait == MAX_DELAY ==> lists.generic[currentTask] == Suspended
      ensures !INCLUDE_VTASK_SUSPEND || ticksToWait < MAX_DELAY ==>
                Time() == Next(old(Time()), Block(currentTask, ticksToWait))
      ensures JoinedInOrder(old(lists).Items(Event(owner)), lists.Items(Event(owner)), currentTask,
                old(tcbs)[currentTask].eventValue, old(tcbs))
    {
      hide EpochShown, Good, Lists.Consistent, Deadlines, JoinedInOrder, IsRested, Leaving, Valid, RestingPlace,
          Turns.Leaves;
      Departing();
      ghost var ls := lists;
      JoinInOrder(owner);
      ghost var joined := lists;
      BlockCurrent(Indefinite(ticksToWait), Plus(tickCount, ticksToWait));
      RestedJoined(ls, joined, lists, tcbs, currentTask, owner,
          RestingPlace(Indefinite(ticksToWait), Plus(tickCount, ticksToWait)), Plus(tickCount, ticksToWait));
      RestedTurns(ls, lists, tcbs, currentTask, RestingPlace(Indefinite(ticksToWait), Plus(tickCount, ticksToWait)),
                  Plus(tickCount, ticksToWait));
    }

    /** `vListInsert` of the running task's event item. */
    method JoinInOrder(owner: nat)
      requires Leaving() && lists.Consistent() && currentTask in tcbs && currentTask !in lists.event
      modifies this`lists
      ensures Leaving() && Time() == old(Time()) && IsJoined(old(lists), lists, currentTask, owner)
      ensures JoinedInOrder(old(lists).Items(Event(owner)), lists.Items(Event(owner)), currentTask,
                tcbs[currentTask].eventValue, tcbs)
    {
      hide EpochShown, Good, Lists.Consistent, Deadlines, EventValues, JoinedInOrder;
      WaitersKnown(lists, tcbs, {currentTask}, topReadyPriority, delayedList, tickCount, nextTaskUnblockTime, owner);
      var items := lists.Items(Event(owner));
      JoinsInOrder(items, currentTask, tcbs[currentTask].eventValue, tcbs);
      var p := Place(EventValues(items, tcbs), tcbs[currentTask].eventValue);
      ghost var joined := lists.InsertEvent(Event(owner), p, currentTask);
      GoodEvent(lists, tcbs, {currentTask}, topReadyPriority, delayedList, tickCount, nextTaskUnblockTime, currentTask,
          joined, Event(owner));
      lists := lists.InsertEvent(Event(owner), p, currentTask);
      EventsAside(old(lists), tcbs, lists, tcbs, delayedList, epochStart);
    }

    /** `vTaskPlaceOnUnorderedEventList`, which event groups use: the running task keeps what it waits for
        as the value of its event item. */
    method PlaceOnUnorderedEventList(owner: nat, itemValue: nat, ticksToWait: Tick)
      requires Valid() && Running() && 0 < ticksToWait && schedulerSuspended != 0
      modifies this`lists, this`tcbs, this`nextTaskUnblockTime
      ensures Valid() && Waiting(old(lists), old(tcbs), old(Time()), owner, Indefinite(ticksToWait), ticksToWait)
      ensures lists.Get(Event(owner)) == InsertEnd(old(lists).Get(Event(owner)), currentTask)
      ensures tcbs[currentTask].eventValue == InUse(itemValue)
      ensures INCLUDE_VTASK_SUSPEND && ticksToWait == MAX_DELAY ==> lists.generic[currentTask] == Suspended
      ensures !INCLUDE_VTASK_SUSPEND || ticksToWait < MAX_DELAY ==>
                Time() == Next(old(Time()), Block(currentTask, ticksToWait))
    {
      hide EpochShown, Good, Lists.Consistent, Deadlines, InUse, EventValues, IsRested, Leaving, Valid,
          RestingPlace, Turns.Leaves;
      Departing();
      ghost var ls := lists;
      KeepItemValue(itemValue);
      JoinEventList(owner);
      ghost var joined := lists;
      BlockCurrent(Indefinite(ticksToWait), Plus(tickCount, ticksToWait));
      RestedJoined(ls, joined, lists, tcbs, currentTask, owner,
          RestingPlace(Indefinite(ticksToWait), Plus(tickCount, ticksToWait)), Plus(tickCount, ticksToWait));
      RestedTurns(ls, lists, tcbs, currentTask, RestingPlace(Indefinite(ticksToWait), Plus(tickCount, ticksToWait)),
                  Plus(tickCount, ticksToWait));
    }

    /** `listSET_LIST_ITEM_VALUE` of the running task's event item. */
    method KeepItemValue(itemValue: nat)
      requires Leaving() && currentTask in tcbs
      modifies this`tcbs
      ensures Leaving() && Time() == old(Time())
      ensures tcbs == old(tcbs)[currentTask := old(tcbs)[currentTask].(eventValue := InUse(itemValue))]
    {
      hide EpochShown, PlacedIn, ToppedBy, TimedBy, Lists.Consistent, Deadlines, InUse;
      GoodIndices(lists, tcbs, {currentTask}, topReadyPriority, delayedList, tickCount, nextTaskUnblockTime);
      var tcb := tcbs[currentTask].(eventValue := InUse(itemValue));
      GoodTcb(lists, tcbs, {currentTask}, topReadyPriority, delayedList, tickCount, nextTaskUnblockTime, currentTask,
          tcb);
      tcbs := tcbs[currentTask := tcb];
      EventsAside(lists, old(tcbs), lists, tcbs, delayedList, epochStart);
    }

    /** `vTaskPlaceOnEventListRestricted`, which the timer service uses. */
    method PlaceOnEventListRestricted(owner: nat, ticksToWait: Tick, waitIndefinitely: bool)
      requires Valid() && Running() && (0 < ticksToWait || (INCLUDE_VTASK_SUSPEND && waitIndefinitely))
      modifies this`lists, this`tcbs, this`nextTaskUnblockTime
      ensures Valid() && Waiting(old(lists), old(tcbs), old(Time()), owner, INCLUDE_VTASK_SUSPEND
           && waitIndefinitely, ticksToWait)
      ensures tcbs[currentTask].eventValue == old(tcbs)[currentTask].eventValue
      ensures lists.Get(Event(owner)) == InsertEnd(old(lists).Get(Event(owner)), currentTask)
    {
      hide EpochShown, Good, Lists.Consistent, Deadlines, Indefinite, EventValues, IsRested, Leaving, Valid,
          RestingPlace, Turns.Leaves;
      Departing();
      ghost var ls := lists;
      JoinEventList(owner);
      ghost var joined := lists;
      BlockCurrent(INCLUDE_VTASK_SUSPEND && waitIndefinitely, Plus(tickCount, ticksToWait));
      RestedJoined(ls, joined, lists, tcbs, currentTask, owner, RestingPlace(INCLUDE_VTASK_SUSPEND
          && waitIndefinitely, Plus(tickCount, ticksToWait)), Plus(tickCount, ticksToWait));
      RestedTurns(ls, lists, tcbs, currentTask,
                  RestingPlace(INCLUDE_VTASK_SUSPEND && waitIndefinitely, Plus(tickCount, ticksToWait)),
                  Plus(tickCount, ticksToWait));
    }

    /** `vListInsertEnd` of the running task's event item. */
    method JoinEventList(owner: nat)
      requires Leaving() && lists.Consistent() && currentTask in tcbs && currentTask !in lists.event
      modifies this`lists
      ensures Leaving() && Time() == old(Time()) && IsJoined(old(lists), lists, currentTask, owner)
      ensures lists.Get(Event(owner)) == InsertEnd(old(lists).Get(Event(owner)), currentTask)
    {
      hide EpochShown, Good, Lists.Consistent, Deadlines;
      ghost var joined := lists.AppendEvent(Event(owner), currentTask);
      GoodEvent(lists, tcbs, {currentTask}, topReadyPriority, delayedList, tickCount, nextTaskUnblockTime, currentTask,
          joined, Event(owner));
      EndOf(lists, Event(owner));
      lists := lists.AppendEvent(Event(owner), currentTask);
      EventsAside(old(lists), tcbs, lists, tcbs, delayedList, epochStart);
    }

    /** How a task that blocks on an event list leaves the kernel. No other list has changed but those it has left and
        joined, and no other control block. */
    ghost predicate Waiting(before: Lists, tcbs0: Tcbs, time: Clock, owner: nat, indefinitely: bool, ticksToWait: Tick)
      reads this
    {
      var wake := Plus(tickCount, ticksToWait);
      && delayedList < 2 && IsRested(before, lists, tcbs, currentTask, RestingPlace(indefinitely, wake), wake)
      && before.generic[currentTask].Ready?
      && Turns.Leaves(before, lists, currentTask, before.generic[currentTask].priority)
      && lists.event == before.event[currentTask := Event(owner)]
      && currentTask in lists.generic && (lists.generic[currentTask].Suspended? <==> indefinitely)
      && (forall id: ListId :: !id.ForGeneric() && id != Event(owner) ==> lists.Get(id) == before.Get(id))
      && Time() == (if indefinitely then time else Next(time, Block(currentTask, ticksToWait)))
      && currentTask in tcbs && currentTask in tcbs0 && tcbs == tcbs0[currentTask := tcbs[currentTask]]
      && tcbs[currentTask] == tcbs0[currentTask].(wakeTime := if indefinitely then tcbs0[currentTask].wakeTime
           else wake,
                                                  eventValue := tcbs[currentTask].eventValue)
    }

    /** `xTaskRemoveFromEventList`: the first waiter becomes ready, or pending ready while the scheduler is
        suspended. */
    method RemoveFromEventList(owner: nat) returns (higherPriority: bool, ghost t: Task)
      requires Valid() && currentTask in tcbs && lists.Items(Event(owner)) != []
      modifies this`lists, this`topReadyPriority, this`yieldPending
      ensures t == old(lists).Items(Event(owner))[0] && t in tcbs
           && higherPriority == (tcbs[t].priority > tcbs[currentTask].priority)
           && yieldPending == (old(yieldPending) || higherPriority)
      ensures Valid() && lists.Items(Event(owner)) == old(lists).Items(Event(owner))[1..]
      ensures schedulerSuspended == 0 ==>
                && Turns.Joins(old(lists), lists, [t], tcbs)
                && IsWake(old(lists), lists, t, tcbs) && Time() == Next(old(Time()), Unblock(t))
      ensures schedulerSuspended > 0 ==> IsPend(old(lists), lists, t) && Time() == old(Time())
    {
      hide EpochShown, PlacedIn, ToppedBy, TimedBy, Lists.Consistent, Lists.Wake, Deadlines, IsPend, Turns.Joins;
      var waiter := lists.Items(Event(owner))[0];
      t := waiter;
      EventHead(lists, tcbs, Event(owner));
      GoodIndices(lists, tcbs, {}, topReadyPriority, delayedList, tickCount, nextTaskUnblockTime);
      if schedulerSuspended == 0 {
        WokenFacts(lists, tcbs, topReadyPriority, delayedList, tickCount, nextTaskUnblockTime, t);
        WakeWaiter(lists, tcbs, Event(owner), t);
        WakeTurns(lists, lists.Wake(t, tcbs), t, tcbs);
        ReadyWaiter(waiter);
      } else {
        PendFirst(waiter, Event(owner));
      }
      higherPriority := tcbs[waiter].priority > tcbs[currentTask].priority;
      if higherPriority {
        yieldPending := true;
      }
    }

    /** The first waiter on an event list is held pending until the scheduler is resumed. */
    method PendFirst(waiter: Task, ghost id: ListId)
      requires Core() && id.Event? && lists.Items(id) != [] && waiter == lists.Items(id)[0]
      modifies this`lists
      ensures Core() && IsPend(old(lists), lists, waiter) && Time() == old(Time())
      ensures lists.Items(id) == old(lists).Items(id)[1..]
    {
      hide EpochShown, PlacedIn, ToppedBy, TimedBy, Lists.Consistent, Deadlines;
      EventHead(lists, tcbs, id);
      GoodIndices(lists, tcbs, {}, topReadyPriority, delayedList, tickCount, nextTaskUnblockTime);
      GoodRemoveEvent(lists, tcbs, {}, topReadyPriority, delayedList, tickCount, nextTaskUnblockTime, waiter);
      PendWaiter(lists, id);
      lists := lists.RemoveEvent(waiter);
      GoodEvent(lists, tcbs, {}, topReadyPriority, delayedList, tickCount, nextTaskUnblockTime, waiter,
                lists.AppendEvent(PendingReady, waiter), PendingReady);
      lists := lists.AppendEvent(PendingReady, waiter);
      EventsAside(old(lists), tcbs, lists, tcbs, delayedList, epochStart);
    }

    /** `xTaskRemoveFromUnorderedEventList`. */
    method RemoveFromUnorderedEventList(t: Task, itemValue: nat) returns (higherPriority: bool)
      requires Valid() && currentTask in tcbs && schedulerSuspended != 0
      requires t in lists.event && lists.event[t].Event?
      modifies this`lists, this`tcbs, this`topReadyPriority, this`yieldPending
      ensures Valid() && t in old(tcbs)
      ensures tcbs == old(tcbs)[t := old(tcbs)[t].(eventValue := InUse(itemValue))]
      ensures IsWake(old(lists), lists, t, tcbs) && Time() == Next(old(Time()), Unblock(t))
      ensures Turns.Joins(old(lists), lists, [t], tcbs)
      ensures higherPriority == (tcbs[t].priority > tcbs[currentTask].priority)
           && yieldPending == (old(yieldPending) || higherPriority)
    {
      hide EpochShown, PlacedIn, ToppedBy, TimedBy, Lists.Consistent, Lists.Wake, Deadlines, InUse, Turns.Joins;
      WaiterPlaced(lists, tcbs, t);
      GoodIndices(lists, tcbs, {}, topReadyPriority, delayedList, tickCount, nextTaskUnblockTime);
      hide Good;
      SetEventValue(t, InUse(itemValue));
      WokenFacts(lists, tcbs, topReadyPriority, delayedList, tickCount, nextTaskUnblockTime, t);
      WakeTurns(lists, lists.Wake(t, tcbs), t, tcbs);
      ReadyWaiter(t);
      higherPriority := tcbs[t].priority > tcbs[currentTask].priority;
      if higherPriority {
        yieldPending := true;
      }
    }

    /** `listSET_LIST_ITEM_VALUE` of an event item. */
    method SetEventValue(t: Task, value: nat)
      requires Valid() && t in tcbs
      modifies this`tcbs
      ensures Valid() && Time() == old(Time()) && tcbs == old(tcbs)[t := old(tcbs)[t].(eventValue := value)]
    {
      hide EpochShown, PlacedIn, ToppedBy, TimedBy, Lists.Consistent, Deadlines;
      GoodIndices(lists, tcbs, {}, topReadyPriority, delayedList, tickCount, nextTaskUnblockTime);
      var tcb := tcbs[t].(eventValue := value);
      GoodTcb(lists, tcbs, {}, topReadyPriority, delayedList, tickCount, nextTaskUnblockTime, t, tcb);
      tcbs := tcbs[t := tcb];
      EventsAside(lists, old(tcbs), lists, tcbs, delayedList, epochStart);
    }

    /** `uxTaskResetEventItemValue`: the running task reads what it was woken by, and its event item orders it by
        priority again. */
    method ResetEventItemValue() returns (itemValue: nat)
      requires Valid() && currentTask in tcbs
      modifies this`tcbs
      ensures Valid() && itemValue == old(tcbs)[currentTask].eventValue && Time() == old(Time())
      ensures var tcb := old(tcbs)[currentTask];
              tcb.priority < MAX_PRIORITIES
                  && tcbs == old(tcbs)[currentTask := tcb.(eventValue := MAX_PRIORITIES - tcb.priority)]
    {
      hide EpochShown, PlacedIn, ToppedBy, TimedBy, Lists.Consistent, Deadlines;
      GoodIndices(lists, tcbs, {}, topReadyPriority, delayedList, tickCount, nextTaskUnblockTime);
      itemValue := tcbs[currentTask].eventValue;
      SetEventValue(currentTask, MAX_PRIORITIES - tcbs[currentTask].priority);
    }

    // ----- Selection -----

    /** `vTaskSwitchContext`. The task chosen has the highest priority of all ready tasks, and is the one
        whose turn it is among its equals. */
    method SwitchContext()
      requires Core() && (schedulerSuspended == 0 ==> SomeReady(lists))
      modifies this`lists, this`currentTask, this`topReadyPriority, this`yieldPending
      ensures Core() && Time() == old(Time()) && yieldPending == (schedulerSuspended > 0)
      ensures schedulerSuspended > 0 ==> lists == old(lists) && currentTask == old(currentTask)
      ensures schedulerSuspended == 0 ==>
                && Running() && IsTurn(old(lists), lists, tcbs[currentTask].priority, currentTask)
                && HighestReady(lists, tcbs, tcbs[currentTask].priority)
                && Turns.Takes(old(lists), lists, currentTask, tcbs[currentTask].priority)
    {
      hide EpochShown, Good, Lists.Consistent, SomeReady, HighestReady, IsTurn, Deadlines, Turns.Takes;
      if schedulerSuspended != 0 {
        yieldPending := true;
      } else {
        yieldPending := false;
        SelectHighestPriorityTask();
        ChosenTurns(old(lists), lists, tcbs[currentTask].priority, currentTask);
      }
    }

    /** `taskSELECT_HIGHEST_PRIORITY_TASK`. */
    method SelectHighestPriorityTask()
      requires Core() && SomeReady(lists)
      modifies this`lists, this`currentTask, this`topReadyPriority
      ensures Core() && Running() && IsTurn(old(lists), lists, tcbs[currentTask].priority, currentTask)
      ensures HighestReady(lists, tcbs, tcbs[currentTask].priority)
      ensures Time() == old(Time())
    {
      hide EpochShown, PlacedIn, ToppedBy, TimedBy, Lists.Consistent, Lists.WalkReady, SomeReady, Deadlines;
      while lists.Items(Ready(topReadyPriority)) == []
        invariant Core() && lists == old(lists)
        decreases topReadyPriority
      {
        GoodLower(lists, tcbs, {}, topReadyPriority, delayedList, tickCount, nextTaskUnblockTime);
        topReadyPriority := topReadyPriority - 1;
      }
      GoodIndices(lists, tcbs, {}, topReadyPriority, delayedList, tickCount, nextTaskUnblockTime);
      GoodWalk(lists, tcbs, {}, topReadyPriority, delayedList, tickCount, nextTaskUnblockTime, topReadyPriority);
      ReadyRing(lists, topReadyPriority);
      lists := lists.WalkReady(topReadyPriority);
      currentTask := lists.Get(Ready(topReadyPriority)).items[lists.Get(Ready(topReadyPriority)).at - 1];
      TopIsHighest(lists, tcbs, {}, topReadyPriority, currentTask);
      NotWaiting(lists, tcbs, currentTask);
      EventsAside(old(lists), tcbs, lists, tcbs, delayedList, epochStart);
    }

    // ----- The life of a task -----

    /** Before the first task is created. */
    constructor ()
      ensures Valid() && tcbs == map[] && currentTask == NO_TASK && !schedulerRunning && Time() == Clock(0, map[])
      ensures schedulerSuspended == 0 && tasksDeleted == 0 && currentNumberOfTasks == 0
    {
      hide Good;
      NoTasks();
      lists, tcbs := Lists(map[], map[], map[]), map[];
      currentTask, schedulerRunning, yieldPending := NO_TASK, false, false;
      delayedList, tickCount, nextTaskUnblockTime, numOfOverflows := 0, 0, 0, 0;
      pendedTicks, schedulerSuspended, topReadyPriority := 0, 0, 0;
      currentNumberOfTasks, tasksDeleted := 0, 0;
      epoch, epochStart := 0, 0;
    }

    /** `xTaskGenericCreate`, once memory for the task is granted or refused. */
    method Create(granted: bool, t: Task, priority: nat) returns (passed: bool, yieldRequired: bool)
      requires Valid() && priority < MAX_PRIORITIES && currentNumberOfTasks < MAX_UBASE
      requires t != NO_TASK && t !in tcbs && (currentTask != NO_TASK ==> currentTask in tcbs)
      modifies this`lists, this`tcbs, this`currentTask, this`topReadyPriority, this`currentNumberOfTasks
      ensures Valid() && passed == granted
           && (!granted ==> lists == old(lists) && tcbs == old(tcbs) && currentTask == old(currentTask))
      ensures granted ==>
                && tcbs == old(tcbs)[t := NewTcb(priority)] && Time() == old(Time())
                && IsNew(old(lists), lists, priority, t) && Turns.Joins(old(lists), lists, [t], tcbs)
                && currentTask == Starts(old(currentTask), old(tcbs), schedulerRunning, t, priority)
      ensures schedulerRunning && old(currentTask) != NO_TASK ==> currentTask == old(currentTask)
      ensures granted && old(currentTask) == NO_TASK ==> currentTask == t
      ensures granted ==>
                && t in tcbs && tcbs[t].priority == tcbs[t].basePriority == priority && tcbs[t].mutexesHeld == 0
                && Orders(tcbs[t])
      ensures yieldRequired <==>
                granted && schedulerRunning && currentTask in tcbs && tcbs[currentTask].priority < priority
    {
      hide EpochShown, Good, Lists.Consistent, Deadlines, IsNew, Turns.Joins;
      passed, yieldRequired := false, false;
      if granted {
        AddNewTask(t, priority);
        passed := true;
      }
      if passed && schedulerRunning {
        if tcbs[currentTask].priority < priority {
          yieldRequired := true;
        }
        assert t in [t];
      }
    }

    /** The critical section of `xTaskGenericCreate`. */
    method AddNewTask(t: Task, priority: nat)
      requires Valid() && priority < MAX_PRIORITIES
      requires t != NO_TASK && t !in tcbs && (currentTask != NO_TASK ==> currentTask in tcbs)
      modifies this`lists, this`tcbs, this`currentTask, this`topReadyPriority, this`currentNumberOfTasks
      ensures Valid() && tcbs == old(tcbs)[t := NewTcb(priority)] && Time() == old(Time())
      ensures IsNew(old(lists), lists, priority, t) && Turns.Joins(old(lists), lists, [t], tcbs)
      ensures currentTask == Starts(old(currentTask), old(tcbs), schedulerRunning, t, priority)
    {
      hide EpochShown, Good, Lists.Consistent, Deadlines, Lists.AppendGeneric, Starts, Turns.Joins;
      GoodCreate(lists, tcbs, topReadyPriority, delayedList, tickCount, nextTaskUnblockTime, t, NewTcb(priority));
      currentNumberOfTasks := currentNumberOfTasks + 1;
      ChooseFirst(t, priority);
      tcbs := tcbs[t := NewTcb(priority)];
      AddTaskToReadyList(t);
      NewTurns(old(lists), lists, t, tcbs);
    }

    /** The part of that section that picks the task to start with. */
    method ChooseFirst(t: Task, priority: nat)
      requires Good(lists, tcbs, {}, topReadyPriority, delayedList, tickCount, nextTaskUnblockTime)
      requires currentNumberOfTasks == |tcbs| + 1 && (currentTask != NO_TASK ==> currentTask in tcbs)
      modifies this`lists, this`currentTask
      ensures lists == old(lists) && currentTask == Starts(old(currentTask), tcbs, schedulerRunning, t, priority)
    {
      if currentTask == NO_TASK {
        currentTask := t;
        if currentNumberOfTasks == 1 {
          FirstTask(lists, tcbs, {});
          InitialiseTaskLists();
        }
      } else if !schedulerRunning {
        if tcbs[currentTask].priority <= priority {
          currentTask := t;
        }
      }
    }

    /** `prvInitialiseTaskLists`. */
    method InitialiseTaskLists()
      modifies this`lists
      ensures lists == Initialised(old(lists))
    {
      lists := Initialised(lists);
    }

    /** `vTaskStartScheduler`, which creates the idle task and the timer service's task before anything runs. The task
        it starts with is ready, unless the one chosen before is not, as when it has been deleted, and outranks both. */
    method StartScheduler(idle: Task, idleGranted: bool, daemon: Task, daemonGranted: bool, daemonPriority: nat)
      returns (started: bool)
      requires Valid() && !schedulerRunning && (currentTask != NO_TASK ==> currentTask in tcbs)
      requires tickCount == 0 && lists.Items(Delayed(delayedList)) == []
      requires currentNumberOfTasks + 1 < MAX_UBASE && daemonPriority < MAX_PRIORITIES
      requires idle != NO_TASK && daemon != NO_TASK && idle != daemon && idle !in tcbs && daemon !in tcbs
      modifies this`lists, this`tcbs, this`currentTask, this`topReadyPriority, this`currentNumberOfTasks,
               this`nextTaskUnblockTime, this`schedulerRunning, this`tickCount
      ensures Valid() && started == schedulerRunning == (idleGranted && daemonGranted) && Time() == old(Time())
      ensures started ==>
                && tcbs == old(tcbs)[idle := NewTcb(0)][daemon := NewTcb(daemonPriority)] && currentTask in tcbs
                && Started(old(lists), lists, idle, daemon, daemonPriority) && SomeReady(lists)
                && Turns.Joins(old(lists), lists, [idle] + [daemon], tcbs)
                && currentTask == (if old(currentTask) != NO_TASK
                   && old(tcbs)[old(currentTask)].priority > daemonPriority
                                   then old(currentTask) else daemon)
      ensures started ==> (Running() <==> currentTask == daemon || IsReady(old(lists), currentTask))
    {
      hide EpochShown, Good, Lists.Consistent, Deadlines, SomeReady, IsNew, Outranked, Turns.Joins;
      var passed, yieldRequired := Create(idleGranted, idle, 0);
      if passed {
        NewElsewhere(old(lists), lists, 0, idle, delayedList);
        ghost var before := lists;
        passed, yieldRequired := Create(daemonGranted, daemon, daemonPriority);
        if passed {
          NewElsewhere(before, lists, daemonPriority, daemon, delayedList);
          StartedBy(old(lists), before, lists, idle, daemon, daemonPriority);
          StartedTurns(old(lists), before, lists, idle, daemon, daemonPriority, tcbs);
        }
      }
      started := passed;
      if passed {
        Start(idle);
        RunningIsReady();
      }
    }

    /** A task that is ready waits for nothing. */
    lemma RunningIsReady()
      requires Core()
      ensures Running() <==> currentTask in tcbs && IsReady(lists, currentTask)
    {
    }

    /** The end of `vTaskStartScheduler`, with interrupts off. */
    method Start(ghost idle: Task)
      requires Valid() && tickCount == 0 && lists.Items(Delayed(delayedList)) == []
      requires idle in lists.generic && lists.generic[idle].Ready?
      modifies this`nextTaskUnblockTime, this`schedulerRunning, this`tickCount
      ensures Valid() && schedulerRunning && tickCount == 0 && SomeReady(lists) && Time() == old(Time())
    {
      hide EpochShown, PlacedIn, ToppedBy, TimedBy, Lists.Consistent, SomeReady, Deadlines;
      ReadySome(lists, tcbs, idle);
      NoneDelayed(lists, tcbs, delayedList);
      GoodNext(lists, tcbs, {}, topReadyPriority, delayedList, tickCount, nextTaskUnblockTime, MAX_DELAY);
      nextTaskUnblockTime := MAX_DELAY;
      schedulerRunning := true;
      tickCount := 0;
    }

    /** `vTaskDelete`: whatever list the task is on, it ends up waiting for the idle task to reap it. */
    method Delete(t: Task) returns (yieldRequired: bool)
      requires Valid() && t in tcbs && !lists.Contains(Termination, t)
      requires schedulerRunning && t == currentTask ==> schedulerSuspended == 0
      modifies this`lists, this`tasksDeleted, this`nextTaskUnblockTime
      ensures Valid() && IsMoved(old(lists), lists, t, Termination) && Time() == Next(old(Time()), Unblock(t))
      ensures Turns.Quits(old(lists), lists, t)
      ensures tasksDeleted == old(tasksDeleted) + 1 && yieldRequired == (schedulerRunning && t == currentTask)
    {
      hide EpochShown, Good, Lists.Consistent, Deadlines, Turns.Quits;
      Park(t, Termination);
      MovedTurns(old(lists), lists, t, Termination);
      tasksDeleted := tasksDeleted + 1;
      yieldRequired := false;
      if schedulerRunning {
        if t == currentTask {
          yieldRequired := true;
        } else {
          RefreshNextTaskUnblockTime();
        }
      }
    }

    /** Remove both items of a task and put the generic one at the end of a list of tasks at rest. */
    method Park(t: Task, id: ListId)
      requires Core() && t in tcbs && !lists.Contains(Termination, t) && (id.Suspended? || id.Termination?)
      modifies this`lists
      ensures Good(lists, tcbs, {}, topReadyPriority, delayedList, tickCount, nextTaskUnblockTime)
      ensures IsMoved(old(lists), lists, t, id) && Time() == Next(old(Time()), Unblock(t))
      ensures old(lists).Items(PendingReady) == [] ==> lists.Items(PendingReady) == []
      ensures |lists.Items(Termination)| == |old(lists).Items(Termination)| + if id.Termination? then 1 else 0
    {
      hide EpochShown, PlacedIn, ToppedBy, TimedBy, Lists.Consistent, Deadlines;
      AllPlaced(lists, tcbs, t);
      GoodIndices(lists, tcbs, {}, topReadyPriority, delayedList, tickCount, nextTaskUnblockTime);
      GoodRemoveGeneric(lists, tcbs, {}, topReadyPriority, delayedList, tickCount, nextTaskUnblockTime, t);
      assert {} + {t} == {t} && {t} - {t} == {};
      lists := lists.RemoveGeneric(t);
      GoodRemoveEvent(lists, tcbs, {t}, topReadyPriority, delayedList, tickCount, nextTaskUnblockTime, t);
      StillNonePended(lists, t);
      lists := lists.RemoveEvent(t);
      GoodPark(lists, tcbs, {t}, topReadyPriority, delayedList, tickCount, nextTaskUnblockTime, t, id);
      AppendLength(lists, id, t);
      lists := lists.AppendGeneric(id, t);
      NoDeadline(old(lists), tcbs, lists, tcbs, delayedList, epochStart, t);
    }

    method RefreshNextTaskUnblockTime()
      requires Core()
      modifies this`nextTaskUnblockTime
      ensures Core()
    {
      ghost var next := nextTaskUnblockTime;
      ResetNextTaskUnblockTime();
      GoodNext(lists, tcbs, {}, topReadyPriority, delayedList, tickCount, next, nextTaskUnblockTime);
    }

    /** `prvCheckTasksWaitingTermination`, which the idle task runs: the deleted tasks are forgotten and
        nothing else happens. */
    method CheckTasksWaitingTermination()
      requires Valid() && Running() && schedulerSuspended == 0
      modifies this
      ensures Valid() && schedulerSuspended == 0 && tasksDeleted == 0 && Time() == old(Time())
           && delayedList == old(delayedList)
      ensures currentTask == old(currentTask) && Running()
      ensures forall t :: t in tcbs <==> t in old(tcbs) && !old(lists).Contains(Termination, t)
      ensures Reaping(old(lists), old(tcbs), lists, tcbs)
    {
      while tasksDeleted > 0
        invariant Valid() && schedulerSuspended == 0 && Running() && Time() == old(Time())
             && delayedList == old(delayedList)
        invariant currentTask == old(currentTask)
        invariant Reaping(old(lists), old(tcbs), lists, tcbs)
        decreases tasksDeleted
      {
        hide EpochShown, Good, Reaping, Lists.Consistent, Deadlines;
        ghost var before, some := lists, tcbs;
        ReapNext();
        ReapMore(old(lists), old(tcbs), before, some, lists, tcbs);
      }
      ReapedAll(old(lists), old(tcbs), lists, tcbs);
    }

    /** One trip round that loop. */
    method ReapNext()
      requires Valid() && Running() && schedulerSuspended == 0 && tasksDeleted > 0
      modifies this
      ensures Valid() && Running() && schedulerSuspended == 0 && Time() == old(Time())
           && delayedList == old(delayedList)
      ensures currentTask == old(currentTask) && tasksDeleted == old(tasksDeleted) - 1
           && IsReap(old(lists), old(tcbs), lists, tcbs)
    {
      hide EpochShown, Good, Lists.Consistent, Deadlines, IsReap;
      var listIsEmpty := LookAtTermination();
      if !listIsEmpty {
        ReapFirst();
      }
    }

    /** The look at the termination list, with the scheduler suspended around it. */
    method LookAtTermination() returns (listIsEmpty: bool)
      requires Valid() && Running() && schedulerSuspended == 0
      modifies this
      ensures Valid() && schedulerSuspended == 0 && Time() == old(Time()) && delayedList == old(delayedList)
           && listIsEmpty == (lists.Items(Termination) == [])
      ensures lists == old(lists) && tcbs == old(tcbs) && currentTask == old(currentTask)
           && tasksDeleted == old(tasksDeleted)
    {
      hide EpochShown, PlacedIn, ToppedBy, TimedBy, Lists.Consistent, Deadlines, Lists.WakeAll, Left, CaughtUp,
          Outranked;
      ghost var ls, due, now := lists, Due(), Now();
      NoneWoken(lists, tcbs);
      DeadlinesAhead(lists, tcbs, delayedList, epochStart, tickCount, nextTaskUnblockTime);
      GoodIndices(lists, tcbs, {}, topReadyPriority, delayedList, tickCount, nextTaskUnblockTime);
      PendedAre(lists);
      SuspendAll();
      listIsEmpty := lists.Items(Termination) == [];
      hide Good;
      var alreadyYielded, readied := ResumeAll();
      assert Now() == now;
      NothingDue(ls, due, readied, now);
    }

    /** Forget the first of the deleted tasks. */
    method ReapFirst()
      requires Valid() && lists.Items(Termination) != [] && Running()
      modifies this`lists, this`tcbs, this`tasksDeleted, this`currentNumberOfTasks
      ensures Valid() && Running() && Time() == old(Time()) && tasksDeleted == old(tasksDeleted) - 1
      ensures IsReap(old(lists), old(tcbs), lists, tcbs)
    {
      hide EpochShown, Good, Lists.Consistent, Deadlines, Lists.RemoveGeneric, IsReap;
      var t := lists.Items(Termination)[0];
      GoodReap(lists, tcbs, topReadyPriority, delayedList, tickCount, nextTaskUnblockTime);
      ReaperRuns(lists, tcbs, currentTask, t);
      lists, tcbs := lists.RemoveGeneric(t), tcbs - {t};
      currentNumberOfTasks, tasksDeleted := currentNumberOfTasks - 1, tasksDeleted - 1;
    }

    // ----- Suspending a task -----

    /** `vTaskSuspend`. Before the scheduler has started, another task takes the place of the one that would have
        run first; there must be one ready, or every other task must be suspended as well. */
    method Suspend(t: Task) returns (yieldRequired: bool, ghost moved: Lists)
      requires Valid() && t in tcbs && !lists.Contains(Termination, t)
      requires schedulerRunning && t == currentTask ==> schedulerSuspended == 0
      requires !schedulerRunning && t == currentTask && schedulerSuspended == 0 ==> OthersReadyOrSuspended(t)
      modifies this`lists, this`nextTaskUnblockTime, this`currentTask, this`topReadyPriority, this`yieldPending
      ensures Valid() && IsMoved(old(lists), moved, t, Suspended) && Time() == Next(old(Time()), Unblock(t))
      ensures Turns.Quits(old(lists), moved, t)
      ensures yieldRequired == (schedulerRunning && t == old(currentTask))
      ensures schedulerRunning || t != old(currentTask) ==>
                lists == moved && currentTask == old(currentTask) && yieldPending == old(yieldPending)
      ensures !schedulerRunning && t == old(currentTask) ==> Replaced(moved, old(currentTask))
    {
      hide EpochShown, PlacedIn, ToppedBy, TimedBy, Lists.Consistent, Deadlines, IsMoved, Replaced, SomeReady,
          Turns.Quits;
      Park(t, Suspended);
      moved := lists;
      MovedTurns(old(lists), moved, t, Suspended);
      yieldRequired := false;
      if t == currentTask {
        if schedulerRunning {
          yieldRequired := true;
        } else {
          OthersReady(old(lists), lists, tcbs, t);
          ReplaceCurrent();
        }
      } else {
        if schedulerRunning {
          RefreshNextTaskUnblockTime();
        }
      }
    }

    /** Some other task is ready, or every other task is suspended. */
    ghost predicate OthersReadyOrSuspended(t: Task)
      reads this
    {
      || (exists x :: x != t && x in lists.generic && lists.generic[x].Ready?)
      || (forall x :: x in tcbs && x != t ==> x in lists.generic && lists.generic[x] == Suspended)
    }

    /** The task to start with once the one chosen before is suspended: none if all are, and otherwise the next in turn
        of the highest priority. */
    ghost predicate Replaced(moved: Lists, before: Task)
      reads this
    {
      if forall x :: x in tcbs ==> x in moved.generic && moved.generic[x] == Suspended then
        lists == moved && currentTask == NO_TASK
      else if schedulerSuspended > 0 then
        lists == moved && currentTask == before && yieldPending
      else
        && Running() && IsTurn(moved, lists, tcbs[currentTask].priority, currentTask)
        && HighestReady(lists, tcbs, tcbs[currentTask].priority)
        && Turns.Takes(moved, lists, currentTask, tcbs[currentTask].priority)
    }

    /** The part of `vTaskSuspend` that finds that task. */
    method ReplaceCurrent()
      requires Valid()
      requires schedulerSuspended == 0 ==>
                 SomeReady(lists) || forall x :: x in tcbs ==> x in lists.generic && lists.generic[x] == Suspended
      modifies this`lists, this`currentTask, this`topReadyPriority, this`yieldPending
      ensures Valid() && Time() == old(Time()) && Replaced(old(lists), old(currentTask))
    {
      hide EpochShown, PlacedIn, ToppedBy, TimedBy, Lists.Consistent, Deadlines, SomeReady, HighestReady, IsTurn,
          Turns.Takes;
      AllSuspended(lists, tcbs);
      if |lists.Items(Suspended)| == currentNumberOfTasks {
        currentTask := NO_TASK;
      } else {
        ghost var before := lists;
        SwitchContext();
        if schedulerSuspended == 0 {
          TurnKeepsPending(before, lists, tcbs[currentTask].priority, currentTask);
        }
      }
    }

    /** `prvTaskIsTaskSuspended`: whether the task is suspended rather than blocked without a time limit,
        and has not been resumed from an interrupt already. */
    predicate IsTaskSuspended(t: Task)
      reads this
    {
      t in lists.generic && lists.generic[t] == Suspended && t !in lists.event
    }

    /** `vTaskResume`. */
    method Resume(t: Task) returns (yieldRequired: bool)
      requires Valid() && currentTask in tcbs && t in tcbs
      modifies this`lists, this`topReadyPriority
      ensures Valid() && Time() == old(Time())
      ensures if t != currentTask && old(IsTaskSuspended(t)) then
                && IsWake(old(lists), lists, t, tcbs) && Turns.Joins(old(lists), lists, [t], tcbs)
                && yieldRequired == (tcbs[t].priority >= tcbs[currentTask].priority)
              else
                lists == old(lists) && !yieldRequired
    {
      hide EpochShown, PlacedIn, ToppedBy, TimedBy, Lists.Consistent, Lists.Wake, Deadlines, Turns.Joins;
      yieldRequired := false;
      if t != currentTask && IsTaskSuspended(t) {
        ReadySuspended(t);
        yieldRequired := tcbs[t].priority >= tcbs[currentTask].priority;
      }
    }

    /** `xTaskResumeFromISR`: while the scheduler is suspended the task is pended instead. */
    method ResumeFromISR(t: Task) returns (yieldRequired: bool)
      requires Valid() && currentTask in tcbs && t in tcbs
      modifies this`lists, this`topReadyPriority
      ensures Valid() && Time() == old(Time())
      ensures if !old(IsTaskSuspended(t)) then lists == old(lists) && !yieldRequired
              else if schedulerSuspended == 0 then
                && IsWake(old(lists), lists, t, tcbs) && Turns.Joins(old(lists), lists, [t], tcbs)
                && yieldRequired == (tcbs[t].priority >= tcbs[currentTask].priority)
              else IsPend(old(lists), lists, t) && !yieldRequired
    {
      hide EpochShown, PlacedIn, ToppedBy, TimedBy, Lists.Consistent, Lists.Wake, Deadlines, Turns.Joins;
      yieldRequired := false;
      if IsTaskSuspended(t) {
        if schedulerSuspended == 0 {
          if tcbs[t].priority >= tcbs[currentTask].priority {
            yieldRequired := true;
          }
          ReadySuspended(t);
        } else {
          GoodIndices(lists, tcbs, {}, topReadyPriority, delayedList, tickCount, nextTaskUnblockTime);
          GoodEvent(lists, tcbs, {}, topReadyPriority, delayedList, tickCount, nextTaskUnblockTime, t,
                    lists.AppendEvent(PendingReady, t), PendingReady);
          lists := lists.AppendEvent(PendingReady, t);
          EventsAside(old(lists), tcbs, lists, tcbs, delayedList, epochStart);
        }
      }
    }

    /** A suspended task that waits for nothing joins its ready list. */
    method ReadySuspended(t: Task)
      requires Valid() && t in tcbs && IsTaskSuspended(t)
      modifies this`lists, this`topReadyPriority
      ensures Valid() && IsWake(old(lists), lists, t, tcbs) && Time() == old(Time())
      ensures Turns.Joins(old(lists), lists, [t], tcbs)
    {
      hide EpochShown, PlacedIn, ToppedBy, TimedBy, Lists.Consistent, Deadlines, Turns.Joins;
      GoodIndices(lists, tcbs, {}, topReadyPriority, delayedList, tickCount, nextTaskUnblockTime);
      WokenFacts(lists, tcbs, topReadyPriority, delayedList, tickCount, nextTaskUnblockTime, t);
      WakeTurns(lists, lists.Wake(t, tcbs), t, tcbs);
      lists := lists.RemoveGeneric(t);
      AddTaskToReadyList(t);
      NotDelayed(old(lists), tcbs, delayedList, epochStart, t);
    }

    // ----- Priorities -----

    /** `vTaskPrioritySet`. A task that has inherited a priority keeps it for the time being. */
    method PrioritySet(t: Task, newPriority: nat) returns (yieldRequired: bool)
      requires Valid() && currentTask in tcbs && t in tcbs && newPriority < MAX_PRIORITIES
      modifies this`lists, this`tcbs, this`topReadyPriority
      ensures Valid() && Time() == old(Time())
      ensures var tcb := old(tcbs)[t];
              if tcb.basePriority == newPriority then
                tcbs == old(tcbs) && lists == old(lists) && !yieldRequired
              else
                && tcbs == old(tcbs)[t := Reprioritised(tcb, newPriority)]
                && IsRelisted(old(lists), lists, t, tcbs)
                && (yieldRequired <==>
                     if newPriority > tcb.basePriority
                         then t != currentTask && newPriority >= old(tcbs)[currentTask].priority
                                       else t == currentTask)
      ensures t in tcbs && tcbs == old(tcbs)[t := tcbs[t]] && tcbs[t].basePriority == newPriority
           && SameButPriority(tcbs[t], old(tcbs)[t])
      ensures old(tcbs)[t].basePriority != newPriority ==>
                && tcbs[t].priority == (if old(tcbs)[t].priority == old(tcbs)[t].basePriority then newPriority
                                        else old(tcbs)[t].priority)
                && tcbs[t].eventValue == (if old(tcbs)[t].eventValue < IN_USE then MAX_PRIORITIES - newPriority
                                          else old(tcbs)[t].eventValue)
                && Turns.Requeues(old(lists), lists, t, tcbs)
    {
      hide EpochShown, Good, Lists.Consistent, Deadlines, Turns.Requeues;
      GoodIndices(lists, tcbs, {}, topReadyPriority, delayedList, tickCount, nextTaskUnblockTime);
      yieldRequired := false;
      var currentBasePriority := tcbs[t].basePriority;
      if currentBasePriority != newPriority {
        if newPriority > currentBasePriority {
          if t != currentTask {
            if newPriority >= tcbs[currentTask].priority {
              yieldRequired := true;
            }
          }
        } else if t == currentTask {
          yieldRequired := true;
        }
        var tcb := tcbs[t];
        if tcb.basePriority == tcb.priority {
          tcb := tcb.(priority := newPriority);
        }
        tcb := tcb.(basePriority := newPriority);
        if tcb.eventValue < IN_USE {
          tcb := tcb.(eventValue := MAX_PRIORITIES - newPriority);
        }
        Relist(t, tcb);
      }
    }

    /** Give a task a new control block and, if it is ready, move it to the ready list of its priority. */
    method Relist(t: Task, tcb: Tcb)
      requires Valid() && t in tcbs && Ranked(tcb) && tcb.wakeTime == tcbs[t].wakeTime
      modifies this`lists, this`tcbs, this`topReadyPriority
      ensures Valid() && tcbs == old(tcbs)[t := tcb] && IsRelisted(old(lists), lists, t, tcbs) && Time() == old(Time())
      ensures Turns.Requeues(old(lists), lists, t, tcbs)
    {
      hide EpochShown, PlacedIn, ToppedBy, TimedBy, Lists.Consistent, Deadlines, Turns.Requeues;
      AllPlaced(lists, tcbs, t);
      ReadyOwn(lists, tcbs, t);
      GoodIndices(lists, tcbs, {}, topReadyPriority, delayedList, tickCount, nextTaskUnblockTime);
      var priorityUsedOnEntry := tcbs[t].priority;
      if lists.generic[t] == Ready(priorityUsedOnEntry) {
        MoveReady(t, tcb);
      } else {
        GoodTcb(lists, tcbs, {}, topReadyPriority, delayedList, tickCount, nextTaskUnblockTime, t, tcb);
        tcbs := tcbs[t := tcb];
        EventsAside(old(lists), old(tcbs), lists, tcbs, delayedList, epochStart);
      }
      RelistedTurns(old(lists), lists, t, tcbs);
    }

    method MoveReady(t: Task, tcb: Tcb)
      requires Valid() && lists.Consistent() && t in tcbs && Ranked(tcb)
      requires t in lists.generic && lists.generic[t].Ready? && t !in lists.event
      modifies this`lists, this`tcbs, this`topReadyPriority
      ensures Valid() && tcbs == old(tcbs)[t := tcb] && IsRelisted(old(lists), lists, t, tcbs) && Time() == old(Time())
    {
      hide EpochShown, Good, Lists.Consistent, Deadlines, IsRelisted, Lists.RemoveGeneric, Lists.AppendGeneric;
      GoodMove(lists, tcbs, topReadyPriority, delayedList, tickCount, nextTaskUnblockTime, t, tcb);
      lists := lists.RemoveGeneric(t);
      tcbs := tcbs[t := tcb];
      AddTaskToReadyList(t);
    }

    /** `vTaskPriorityInherit`: the holder of a mutex is raised to the priority of the running task. */
    method PriorityInherit(holder: Task)
      requires Valid() && currentTask in tcbs && (holder != NO_TASK ==> holder in tcbs)
      modifies this`lists, this`tcbs, this`topReadyPriority
      ensures Valid() && Time() == old(Time())
      ensures if holder != NO_TASK && old(tcbs)[holder].priority < old(tcbs)[currentTask].priority then
                && tcbs == old(tcbs)[holder := Raised(old(tcbs)[holder], old(tcbs)[currentTask].priority)]
                && IsRelisted(old(lists), lists, holder, tcbs) && Turns.Requeues(old(lists), lists, holder, tcbs)
              else
                tcbs == old(tcbs) && lists == old(lists)
      ensures holder != NO_TASK ==>
                && holder in tcbs && tcbs == old(tcbs)[holder := tcbs[holder]]
                && tcbs[holder].priority == Max(old(tcbs)[holder].priority, old(tcbs)[currentTask].priority)
                && tcbs[holder].basePriority == old(tcbs)[holder].basePriority
                && SameButPriority(tcbs[holder], old(tcbs)[holder])
                && tcbs[holder].eventValue ==
                   (if old(tcbs)[holder].priority < old(tcbs)[currentTask].priority
                       && old(tcbs)[holder].eventValue < IN_USE then MAX_PRIORITIES - old(tcbs)[currentTask].priority
                    else old(tcbs)[holder].eventValue)
    {
      hide EpochShown, Good, Lists.Consistent, Deadlines, Turns.Requeues;
      GoodIndices(lists, tcbs, {}, topReadyPriority, delayedList, tickCount, nextTaskUnblockTime);
      if holder != NO_TASK {
        if tcbs[holder].priority < tcbs[currentTask].priority {
          var tcb := tcbs[holder];
          if tcb.eventValue < IN_USE {
            tcb := tcb.(eventValue := MAX_PRIORITIES - tcbs[currentTask].priority);
          }
          Relist(holder, tcb.(priority := tcbs[currentTask].priority));
        }
      }
    }

    /** `xTaskPriorityDisinherit`: the running task gives a mutex back, and with its last one the priority
        it inherited. */
    method PriorityDisinherit(holder: Task) returns (yieldRequired: bool)
      requires Valid() && (holder != NO_TASK ==> holder == currentTask && Running() && tcbs[holder].mutexesHeld > 0)
      modifies this`lists, this`tcbs, this`topReadyPriority
      ensures Valid() && Time() == old(Time())
      ensures yieldRequired <==>
                holder != NO_TASK && old(tcbs)[holder].priority != old(tcbs)[holder].basePriority
                    && old(tcbs)[holder].mutexesHeld == 1
      ensures if holder != NO_TASK then
                && tcbs == old(tcbs)[holder := Lowered(old(tcbs)[holder])]
                && if yieldRequired then IsRelisted(old(lists), lists, holder, tcbs)
                                         && Turns.Requeues(old(lists), lists, holder, tcbs) else lists == old(lists)
              else
                tcbs == old(tcbs) && lists == old(lists)
      ensures holder != NO_TASK ==>
                && holder in tcbs && tcbs == old(tcbs)[holder := tcbs[holder]]
                && tcbs[holder].mutexesHeld == old(tcbs)[holder].mutexesHeld - 1
                && tcbs[holder].basePriority == old(tcbs)[holder].basePriority
                && tcbs[holder].wakeTime == old(tcbs)[holder].wakeTime
                && tcbs[holder].priority == (if tcbs[holder].mutexesHeld == 0 then old(tcbs)[holder].basePriority
                                             else old(tcbs)[holder].priority)
                && tcbs[holder].eventValue == (if yieldRequired then MAX_PRIORITIES - old(tcbs)[holder].basePriority
                                               else old(tcbs)[holder].eventValue)
    {
      hide EpochShown, PlacedIn, ToppedBy, TimedBy, Lists.Consistent, Deadlines, Turns.Requeues;
      yieldRequired := false;
      GoodIndices(lists, tcbs, {}, topReadyPriority, delayedList, tickCount, nextTaskUnblockTime);
      if holder != NO_TASK {
        var tcb := tcbs[holder].(mutexesHeld := tcbs[holder].mutexesHeld - 1);
        if tcb.priority != tcb.basePriority && tcb.mutexesHeld == 0 {
          Relist(holder, tcb.(priority := tcb.basePriority, eventValue := MAX_PRIORITIES - tcb.basePriority));
          yieldRequired := true;
        } else {
          GoodTcb(lists, tcbs, {}, topReadyPriority, delayedList, tickCount, nextTaskUnblockTime, holder, tcb);
          tcbs := tcbs[holder := tcb];
          EventsAside(old(lists), old(tcbs), lists, tcbs, delayedList, epochStart);
        }
      }
    }

    /** `pvTaskIncrementMutexHeldCount`. */
    method IncrementMutexHeldCount() returns (holder: Task)
      requires Valid() && (currentTask != NO_TASK ==> currentTask in tcbs)
      modifies this`tcbs
      ensures Valid() && Time() == old(Time()) && holder == currentTask
      ensures tcbs == if currentTask == NO_TASK then old(tcbs) else
                old(tcbs)[currentTask := old(tcbs)[currentTask].(mutexesHeld := old(tcbs)[currentTask].mutexesHeld + 1)]
    {
      hide EpochShown, PlacedIn, ToppedBy, TimedBy, Lists.Consistent, Deadlines;
      if currentTask != NO_TASK {
        var tcb := tcbs[currentTask].(mutexesHeld := tcbs[currentTask].mutexesHeld + 1);
        GoodIndices(lists, tcbs, {}, topReadyPriority, delayedList, tickCount, nextTaskUnblockTime);
        GoodTcb(lists, tcbs, {}, topReadyPriority, delayedList, tickCount, nextTaskUnblockTime, currentTask, tcb);
        tcbs := tcbs[currentTask := tcb];
        EventsAside(lists, old(tcbs), lists, tcbs, delayedList, epochStart);
      }
      holder := currentTask;
    }
  }
}
