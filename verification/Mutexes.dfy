/** Mutexes of queue.c and priority inheritance: queues of length one without storage that remember
    the task holding them. */
module Mutexes {
  import opened Common
  import opened Ticks
  import opened Rings
  import opened TaskLists
  import opened KernelLists
  import opened Kernels
  import Turns

  /** A mutex, by the number of the event list on which tasks wait to take it. */
  type Mutex = nat

  ghost function HeldBy(holder: map<Mutex, Task>, t: Task): set<Mutex> {
    set m | m in holder && holder[m] == t
  }

  /** What mutexes and task control blocks always agree on. `floor` records the highest priority at which
      a task has blocked on each mutex since it was last taken. */
  ghost predicate Agree(holder: map<Mutex, Task>, count: map<Mutex, nat>, floor: map<Mutex, nat>, tcbs: Tcbs) {
    && holder.Keys == count.Keys == floor.Keys
    && (forall m :: m in holder ==> count[m] == if holder[m] == NO_TASK then 1 else 0)
    && (forall m :: m in holder && holder[m] != NO_TASK ==>
          holder[m] in tcbs && floor[m] <= tcbs[holder[m]].priority && 0 < tcbs[holder[m]].mutexesHeld)
    && (forall t :: t in tcbs ==> tcbs[t].mutexesHeld == |HeldBy(holder, t)|)
    && (forall t :: t in tcbs && tcbs[t].mutexesHeld == 0 ==> tcbs[t].priority == tcbs[t].basePriority)
  }

  lemma AgreeNew(holder: map<Mutex, Task>, count: map<Mutex, nat>, floor: map<Mutex, nat>, tcbs: Tcbs, m: Mutex)
    requires Agree(holder, count, floor, tcbs) && m !in holder && NO_TASK !in tcbs
    ensures Agree(holder[m := NO_TASK], count[m := 1], floor[m := 0], tcbs)
  {
    assert forall t :: t != NO_TASK ==> HeldBy(holder[m := NO_TASK], t) == HeldBy(holder, t);
  }

  lemma NobodyIsNoTask(kernel: Kernel)
    requires kernel.Core()
    ensures NO_TASK !in kernel.tcbs && forall t :: t in kernel.tcbs ==> Ranked(kernel.tcbs[t])
  {
  }

  /** A mutex is available exactly when nobody holds it. */
  lemma Availability(holder: map<Mutex, Task>, count: map<Mutex, nat>, floor: map<Mutex, nat>, tcbs: Tcbs, m: Mutex)
    requires Agree(holder, count, floor, tcbs) && m in holder
    ensures m in count && m in floor && (count[m] == 1 <==> holder[m] == NO_TASK) && count[m] <= 1
    ensures holder[m] != NO_TASK ==>
              holder[m] in tcbs && floor[m] <= tcbs[holder[m]].priority && 0 < tcbs[holder[m]].mutexesHeld
  {
  }

  /** A mutex changes hands from `t` to nobody, or from nobody to `t`. */
  lemma HeldChange(holder: map<Mutex, Task>, m: Mutex, from: Task, to: Task)
    requires m in holder && holder[m] == from && from != to
    ensures |HeldBy(holder[m := to], from)| == |HeldBy(holder, from)| - 1
    ensures |HeldBy(holder[m := to], to)| == |HeldBy(holder, to)| + 1
    ensures forall t :: t != from && t != to ==> HeldBy(holder[m := to], t) == HeldBy(holder, t)
  {
    assert HeldBy(holder[m := to], from) == HeldBy(holder, from) - {m};
    assert HeldBy(holder[m := to], to) == HeldBy(holder, to) + {m};
  }

  lemma AgreeTaken(holder: map<Mutex, Task>, count: map<Mutex, nat>, floor: map<Mutex, nat>, tcbs: Tcbs, m: Mutex,
                   t: Task)
    requires Agree(holder, count, floor, tcbs) && m in holder && holder[m] == NO_TASK && t in tcbs && t != NO_TASK
         && NO_TASK !in tcbs
    ensures Agree(holder[m := t], count[m := 0], floor[m := 0],
              tcbs[t := tcbs[t].(mutexesHeld := tcbs[t].mutexesHeld + 1)])
  {
    HeldChange(holder, m, NO_TASK, t);
  }

  lemma AgreeGiven(holder: map<Mutex, Task>, count: map<Mutex, nat>, floor: map<Mutex, nat>, tcbs: Tcbs, m: Mutex)
    requires Agree(holder, count, floor, tcbs) && m in holder && holder[m] != NO_TASK && NO_TASK !in tcbs
    requires Ranked(tcbs[holder[m]])
    ensures tcbs[holder[m]].mutexesHeld > 0
    ensures Agree(holder[m := NO_TASK], count[m := 1], floor, tcbs[holder[m] := Lowered(tcbs[holder[m]])])
  {
    hide HeldBy;
    var t := holder[m];
    HeldToo(holder, m, t);
    HeldChange(holder, m, t, NO_TASK);
    var holder', tcbs' := holder[m := NO_TASK], tcbs[t := Lowered(tcbs[t])];
    forall m' | m' in holder' && holder'[m'] != NO_TASK
      ensures floor[m'] <= tcbs'[holder'[m']].priority && 0 < tcbs'[holder'[m']].mutexesHeld
    {
      if holder'[m'] == t {
        HeldToo(holder', m', t);
      }
    }
  }

  lemma HeldToo(holder: map<Mutex, Task>, m: Mutex, t: Task)
    requires m in holder && holder[m] == t
    ensures m in HeldBy(holder, t) && |HeldBy(holder, t)| > 0
  {
  }

  /** The holder of a mutex, raised to the priority of the task that blocks on it. */
  lemma AgreeRaised(holder: map<Mutex, Task>, count: map<Mutex, nat>, floor: map<Mutex, nat>, tcbs: Tcbs, m: Mutex,
                    priority: nat, tcbs': Tcbs)
    requires Agree(holder, count, floor, tcbs) && m in holder && holder[m] != NO_TASK && priority < MAX_PRIORITIES
    requires tcbs' == if tcbs[holder[m]].priority < priority then tcbs[holder[m] := Raised(tcbs[holder[m]], priority)]
              else tcbs
    ensures Agree(holder, count, floor[m := Max(floor[m], priority)], tcbs')
    ensures tcbs'[holder[m]].priority >= priority
  {
    assert m in HeldBy(holder, holder[m]);
  }

  /** Changes that leave held counts alone, and holders with priorities no lower than they owe. */
  lemma AgreeKept(holder: map<Mutex, Task>, count: map<Mutex, nat>, floor: map<Mutex, nat>, tcbs: Tcbs, tcbs': Tcbs)
    requires Agree(holder, count, floor, tcbs) && tcbs'.Keys == tcbs.Keys
    requires forall t :: t in tcbs ==> tcbs'[t].mutexesHeld == tcbs[t].mutexesHeld
    requires forall m :: m in holder && m in floor && holder[m] in tcbs' ==> floor[m] <= tcbs'[holder[m]].priority
    requires forall t :: t in tcbs && tcbs[t].mutexesHeld == 0 && tcbs[t].priority == tcbs[t].basePriority ==>
               tcbs'[t].priority == tcbs'[t].basePriority
    ensures Agree(holder, count, floor, tcbs')
  {
  }

  lemma RelistedWaiters(ls: Lists, ls': Lists, t: Task, tcbs: Tcbs, m: Mutex)
    requires IsRelisted(ls, ls', t, tcbs)
    ensures ls'.Items(Event(m)) == ls.Items(Event(m))
  {
    if ls.generic[t].Ready? {
      assert ls'.Get(Event(m)) == ls.RemoveGeneric(t).Get(Event(m)) == ls.Get(Event(m));
    }
  }

  lemma StillRunning(ls: Lists, ls': Lists, t: Task, tcbs: Tcbs, current: Task)
    requires ls' == ls || IsRelisted(ls, ls', t, tcbs)
    requires current in ls.generic && ls.generic[current].Ready? && current !in ls.event
    ensures current in ls'.generic && ls'.generic[current].Ready? && current !in ls'.event
  {
  }

  // ----- Runs -----

  /** What mutexes and control blocks hold, apart from the lists of the scheduler. */
  datatype State = State(holder: map<Mutex, Task>, count: map<Mutex, nat>, ghost floor: map<Mutex, nat>, tcbs: Tcbs)

  datatype Use = Take(mutex: Mutex, task: Task) | Await(mutex: Mutex, task: Task,
      wakeTime: Tick) | GiveBack(mutex: Mutex)
                | SetPriority(task: Task, priority: nat) | Elsewhere(after: Tcbs)

  /** What every other operation of the kernel does to control blocks: tasks come and go and wait for this and that, but
      no holder of a mutex goes, and nobody's priority or count of mutexes changes. */
  ghost predicate Aside(holder: map<Mutex, Task>, tcbs: Tcbs, after: Tcbs) {
    && NO_TASK !in after && (forall m :: m in holder && holder[m] != NO_TASK ==> holder[m] in after)
    && (forall t :: t in after && t in tcbs ==> SameStanding(tcbs[t], after[t]))
    && (forall t ::
         t in after && t !in tcbs ==>
             after[t].mutexesHeld == 0 && after[t].priority == after[t].basePriority && Ranked(after[t]))
  }

  predicate SameStanding(a: Tcb, b: Tcb) {
    a.priority == b.priority && a.basePriority == b.basePriority && a.mutexesHeld == b.mutexesHeld
  }

  ghost predicate Inv(s: State) {
    && Agree(s.holder, s.count, s.floor, s.tcbs)
    && NO_TASK !in s.tcbs && forall t :: t in s.tcbs ==> Ranked(s.tcbs[t])
  }

  /** When each use may be made: a mutex is taken from nobody, and waited for or given back while held. */
  ghost predicate Enabled(s: State, d: Use) {
    match d
    case Take(m, t) => m in s.holder && s.holder[m] == NO_TASK && t in s.tcbs
    case Await(m, t, _) => m in s.holder && s.holder[m] in s.tcbs && m in s.floor && t in s.tcbs && Ranked(s.tcbs[t])
    case GiveBack(m) =>
        m in s.holder && s.holder[m] in s.tcbs && s.tcbs[s.holder[m]].mutexesHeld > 0 && Ranked(s.tcbs[s.holder[m]])
    case SetPriority(t, p) => t in s.tcbs && p < MAX_PRIORITIES
    case Elsewhere(after) => Aside(s.holder, s.tcbs, after)
  }

  /** A task may be set to a priority if what it uses is an inherited one, which stays, or if no task that has blocked
      on a mutex of its had a higher one. */
  ghost predicate Harmless(s: State, t: Task, priority: nat)
    requires t in s.tcbs
  {
    || s.tcbs[t].priority != s.tcbs[t].basePriority
    || forall m :: m in HeldBy(s.holder, t) && m in s.floor ==> s.floor[m] <= priority
  }

  ghost predicate Safe(s: State, d: Use) {
    d.SetPriority? && d.task in s.tcbs ==> Harmless(s, d.task, d.priority)
  }

  /** `vTaskPriorityInherit`. */
  function Inherited(tcbs: Tcbs, t: Task, priority: nat): Tcbs
    requires t in tcbs && priority < MAX_PRIORITIES
  {
    if tcbs[t].priority < priority then tcbs[t := Raised(tcbs[t], priority)] else tcbs
  }

  /** The control blocks after `t` has blocked on a mutex that `holder` holds. */
  function AfterBlock(tcbs: Tcbs, holder: Task, t: Task, wakeTime: Tick): Tcbs
    requires holder in tcbs && t in tcbs && tcbs[t].priority < MAX_PRIORITIES
  {
    var raised := Inherited(tcbs, holder, tcbs[t].priority);
    raised[t := raised[t].(wakeTime := wakeTime)]
  }

  ghost function AfterUse(s: State, d: Use): State
    requires Enabled(s, d)
  {
    match d
    case Take(m, t) =>
      State(s.holder[m := t], s.count[m := 0], s.floor[m := 0],
          s.tcbs[t := s.tcbs[t].(mutexesHeld := s.tcbs[t].mutexesHeld + 1)])
    case Await(m, t, wakeTime) =>
      s.(floor := s.floor[m := Max(s.floor[m], s.tcbs[t].priority)],
          tcbs := AfterBlock(s.tcbs, s.holder[m], t, wakeTime))
    case GiveBack(m) =>
      State(s.holder[m := NO_TASK], s.count[m := 1], s.floor, s.tcbs[s.holder[m] := Lowered(s.tcbs[s.holder[m]])])
    case SetPriority(t, p) =>
      if s.tcbs[t].basePriority == p then s else s.(tcbs := s.tcbs[t := Reprioritised(s.tcbs[t], p)])
    case Elsewhere(after) => s.(tcbs := after)
  }

  ghost predicate IsUse(s: State, s': State, d: Use) {
    Enabled(s, d) && s' == AfterUse(s, d)
  }

  /** Every use of a mutex keeps the invariant, and so does every change of priority that is harmless. */
  lemma StepKeeps(s: State, d: Use)
    requires Inv(s) && Enabled(s, d) && Safe(s, d)
    ensures Inv(AfterUse(s, d))
  {
    hide Agree;
    match d {
      case Take(m, t) => AgreeTaken(s.holder, s.count, s.floor, s.tcbs, m, t);
      case Await(m, t, wakeTime) => AwaitKeeps(s, m, t, wakeTime);
      case GiveBack(m) => AgreeGiven(s.holder, s.count, s.floor, s.tcbs, m);
      case SetPriority(t, p) => SetPriorityExact(s, t, p);
      case Elsewhere(after) => AsideKeeps(s, after);
    }
  }

  lemma AsideKeeps(s: State, after: Tcbs)
    requires Inv(s) && Aside(s.holder, s.tcbs, after)
    ensures Inv(s.(tcbs := after))
  {
    forall t | t in after
      ensures after[t].mutexesHeld == |HeldBy(s.holder, t)|
    {
      if t !in s.tcbs {
        assert HeldBy(s.holder, t) == {};
      }
    }
  }

  lemma HoldersKnown(s: State)
    requires Inv(s)
    ensures forall m :: m in s.holder && s.holder[m] != NO_TASK ==> s.holder[m] in s.tcbs
  {
  }

  lemma SameButWakeTime(tcbs: Tcbs, holder: Task, t: Task, wakeTime: Tick)
    requires holder in tcbs && t in tcbs && tcbs[t].priority < MAX_PRIORITIES
    ensures var before, after := Inherited(tcbs, holder, tcbs[t].priority), AfterBlock(tcbs, holder, t, wakeTime);
            && after.Keys == before.Keys == tcbs.Keys
            && (forall x :: x in tcbs ==> after[x] == before[x].(wakeTime := after[x].wakeTime))
            && (forall x :: x in tcbs && Ranked(tcbs[x]) ==> Ranked(after[x]))
  {
  }

  lemma FloorsKept(holder: map<Mutex, Task>, count: map<Mutex, nat>, floor: map<Mutex, nat>, tcbs: Tcbs)
    requires Agree(holder, count, floor, tcbs) && NO_TASK !in tcbs
    ensures forall m :: m in holder && m in floor && holder[m] in tcbs ==> floor[m] <= tcbs[holder[m]].priority
  {
  }

  lemma AwaitKeeps(s: State, m: Mutex, t: Task, wakeTime: Tick)
    requires Inv(s) && Enabled(s, Await(m, t, wakeTime))
    ensures Inv(AfterUse(s, Await(m, t, wakeTime)))
  {
    var priority := s.tcbs[t].priority;
    var raised, floor := Inherited(s.tcbs, s.holder[m], priority), s.floor[m := Max(s.floor[m], priority)];
    AgreeRaised(s.holder, s.count, s.floor, s.tcbs, m, priority, raised);
    SameButWakeTime(s.tcbs, s.holder[m], t, wakeTime);
    Availability(s.holder, s.count, floor, raised, m);
    assert s.floor.Keys == floor.Keys;
    FloorsKept(s.holder, s.count, floor, raised);
    hide Agree, AfterBlock, Inherited;
    AgreeKept(s.holder, s.count, floor, raised, AfterBlock(s.tcbs, s.holder[m], t, wakeTime));
  }

  lemma Awaitable(s: State, m: Mutex, t: Task)
    requires Inv(s) && m in s.holder && (m in s.count ==> s.count[m] == 0) && t in s.tcbs
    ensures m in s.floor && s.holder[m] != NO_TASK && s.holder[m] in s.tcbs && s.tcbs[t].priority < MAX_PRIORITIES
  {
    Availability(s.holder, s.count, s.floor, s.tcbs, m);
  }

  lemma InheritedIs(tcbs: Tcbs, holder: Task, priority: nat, raised: Tcbs)
    requires holder in tcbs && priority < MAX_PRIORITIES
    requires raised == if tcbs[holder].priority < priority then tcbs[holder := Raised(tcbs[holder], priority)] else tcbs
    ensures raised == Inherited(tcbs, holder, priority)
  {
  }

  /** What inheriting and blocking leave is what one step of the protocol does. */
  lemma AwaitIs(s: State, m: Mutex, t: Task, wakeTime: Tick, after: Tcbs, floor: map<Mutex, nat>)
    requires Inv(s) && m in s.holder && s.holder[m] in s.tcbs && m in s.floor && t in s.tcbs
         && s.tcbs[t].priority < MAX_PRIORITIES
    requires var raised := Inherited(s.tcbs, s.holder[m], s.tcbs[t].priority);
             t in raised && after == raised[t := raised[t].(wakeTime := wakeTime)]
    requires floor == s.floor[m := Max(s.floor[m], s.tcbs[t].priority)]
    ensures var s' := State(s.holder, s.count, floor, after); IsUse(s, s', Await(m, t, wakeTime)) && Inv(s')
  {
    hide Agree, Inherited;
    StepKeeps(s, Await(m, t, wakeTime));
  }

  ghost predicate Run(s: State, ds: seq<Use>)
    decreases ds
  {
    ds != [] ==> Enabled(s, ds[0]) && Safe(s, ds[0]) && Run(AfterUse(s, ds[0]), ds[1..])
  }

  ghost function Last(s: State, ds: seq<Use>): State
    requires Run(s, ds)
    decreases ds
  {
    if ds == [] then s else Last(AfterUse(s, ds[0]), ds[1..])
  }

  /** No use but giving it back changes the holder of a mutex, or lowers what its holder owes the waiters. */
  lemma HolderStays(s: State, d: Use, m: Mutex)
    requires Inv(s) && Enabled(s, d) && m in s.holder && s.holder[m] != NO_TASK && d != GiveBack(m)
    ensures var s' := AfterUse(s, d); m in s'.holder && s'.holder[m] == s.holder[m] && s.floor[m] <= s'.floor[m]
  {
  }

  /** As long as a mutex is not given back, its holder stays the same, and runs at no less than the priority of
      any task that has blocked on it, whatever else is taken, given, waited for or set meanwhile, whether the holder
      sleeps or waits for something else, and whatever tasks are created or reaped. */
  lemma {:induction false} HolderKeepsPriority(s: State, m: Mutex, ds: seq<Use>)
    requires Inv(s) && Run(s, ds) && m in s.holder && s.holder[m] != NO_TASK && m in s.floor
    requires forall d :: d in ds ==> d != GiveBack(m)
    ensures var s' := Last(s, ds);
            && m in s'.holder && s'.holder[m] == s.holder[m] && s'.holder[m] in s'.tcbs
            && s.floor[m] <= s'.tcbs[s'.holder[m]].priority
    decreases ds
  {
    hide Agree, Enabled, AfterUse, Safe;
    Availability(s.holder, s.count, s.floor, s.tcbs, m);
    if ds != [] {
      StepKeeps(s, ds[0]);
      assert ds[0] in ds && forall d :: d in ds[1..] ==> d in ds;
      HolderStays(s, ds[0], m);
      var s1 := AfterUse(s, ds[0]);
      Availability(s1.holder, s1.count, s1.floor, s1.tcbs, m);
      HolderKeepsPriority(s1, m, ds[1..]);
    }
  }

  /** In particular from the moment a task blocks on it. */
  lemma BlockerBounds(s: State, m: Mutex, t: Task, wakeTime: Tick, ds: seq<Use>)
    requires Inv(s) && Enabled(s, Await(m, t, wakeTime)) && Run(s, [Await(m, t, wakeTime)] + ds)
    requires forall d :: d in ds ==> d != GiveBack(m)
    ensures var s' := Last(s, [Await(m, t, wakeTime)] + ds);
            m in s'.holder && s'.holder[m] == s.holder[m] && s'.holder[m] in s'.tcbs
                && s.tcbs[t].priority <= s'.tcbs[s'.holder[m]].priority
  {
    StepKeeps(s, Await(m, t, wakeTime));
    assert ([Await(m, t, wakeTime)] + ds)[1..] == ds;
    HolderKeepsPriority(AfterUse(s, Await(m, t, wakeTime)), m, ds);
  }

  // ----- Where priorities come from -----

  /** A task stays, and nobody sets its priority. */
  ghost predicate LeftAlone(d: Use, t: Task) {
    match d
    case SetPriority(x, _) => x != t
    case Elsewhere(after) => t in after
    case _ => true
  }

  lemma StepKeepsBase(s: State, d: Use, t: Task)
    requires Inv(s) && Enabled(s, d) && t in s.tcbs && LeftAlone(d, t)
    ensures t in AfterUse(s, d).tcbs && AfterUse(s, d).tcbs[t].basePriority == s.tcbs[t].basePriority
  {
  }

  /** Whatever a task takes, gives back and waits for, and whoever waits for it: as long as nobody sets its priority,
      its base priority stays, and whenever it holds no mutex it runs at that. */
  lemma {:induction false} BasePriorityStays(s: State, t: Task, ds: seq<Use>)
    requires Inv(s) && Run(s, ds) && t in s.tcbs && forall d :: d in ds ==> LeftAlone(d, t)
    ensures var s' := Last(s, ds);
            && t in s'.tcbs && s'.tcbs[t].basePriority == s.tcbs[t].basePriority
            && (HeldBy(s'.holder, t) == {} ==> s'.tcbs[t].priority == s.tcbs[t].basePriority)
    decreases ds
  {
    hide Enabled, AfterUse, Safe, LeftAlone;
    if ds != [] {
      assert ds[0] in ds && forall d :: d in ds[1..] ==> d in ds;
      StepKeeps(s, ds[0]);
      StepKeepsBase(s, ds[0], t);
      BasePriorityStays(AfterUse(s, ds[0]), t, ds[1..]);
    }
  }

  /** No task has more than a priority, used or base. */
  ghost predicate Capped(tcbs: Tcbs, cap: nat) {
    forall t :: t in tcbs ==> tcbs[t].priority <= cap && tcbs[t].basePriority <= cap
  }

  /** A use that gives no task more than that: of new tasks and settings of priorities alone it is asked. */
  ghost predicate CappedUse(d: Use, cap: nat) {
    match d
    case SetPriority(_, p) => p <= cap
    case Elsewhere(after) => Capped(after, cap)
    case _ => true
  }

  lemma StepKeepsCap(s: State, d: Use, cap: nat)
    requires Enabled(s, d) && Capped(s.tcbs, cap) && CappedUse(d, cap)
    ensures Capped(AfterUse(s, d).tcbs, cap)
  {
  }

  /** Inheritance makes up no priorities: over any run, no task gets to a priority above all those that tasks had at the
      start, were created with or were set to. */
  lemma {:induction false} PrioritiesAreGiven(s: State, cap: nat, ds: seq<Use>)
    requires Run(s, ds) && Capped(s.tcbs, cap) && forall d :: d in ds ==> CappedUse(d, cap)
    ensures Capped(Last(s, ds).tcbs, cap)
    decreases ds
  {
    hide Enabled, AfterUse, Safe, CappedUse, Capped;
    if ds != [] {
      assert ds[0] in ds && forall d :: d in ds[1..] ==> d in ds;
      StepKeepsCap(s, ds[0], cap);
      PrioritiesAreGiven(AfterUse(s, ds[0]), cap, ds[1..]);
    }
  }

  /** A task's count of mutexes is that of those it holds. */
  lemma HeldCount(s: State, t: Task)
    requires Inv(s) && t in s.tcbs
    ensures s.tcbs[t].mutexesHeld == 0 <==> HeldBy(s.holder, t) == {}
  {
  }

  /** No task but one has a new priority, used or base. */
  ghost predicate OthersKeep(tcbs: Tcbs, tcbs': Tcbs, t: Task) {
    && tcbs'.Keys == tcbs.Keys
    && forall x :: x in tcbs && x != t ==>
         tcbs'[x].priority == tcbs[x].priority && tcbs'[x].basePriority == tcbs[x].basePriority
  }

  /** The task that gave a mutex back is at its base priority if it was its last, and at the priority it ran at if not;
      nobody else's priority has changed, and nobody's base priority. */
  ghost predicate GivenBack(s: State, s': State, m: Mutex) {
    && m in s.holder && s'.holder == s.holder[m := NO_TASK] && s'.count == s.count[m := 1]
    && var t := s.holder[m];
       && OthersKeep(s.tcbs, s'.tcbs, t) && t in s'.tcbs && t in s.tcbs
       && s'.tcbs[t].basePriority == s.tcbs[t].basePriority
       && s'.tcbs[t].priority == if HeldBy(s'.holder, t) == {} then s.tcbs[t].basePriority else s.tcbs[t].priority
  }

  /** The holder of a mutex is at the higher of its own priority and that of the task that waits for it; nobody else's
      priority has changed, and nobody's base priority. */
  ghost predicate InheritedFrom(tcbs: Tcbs, tcbs': Tcbs, holder: Task, waiter: Task) {
    && holder in tcbs && holder in tcbs' && waiter in tcbs && OthersKeep(tcbs, tcbs', holder)
    && tcbs'[holder].priority == Max(tcbs[holder].priority, tcbs[waiter].priority)
    && tcbs'[holder].basePriority == tcbs[holder].basePriority
  }

  /** The task has a new base priority, and runs at that unless it has inherited another; nobody else's priority has
      changed. */
  ghost predicate SetTo(tcbs: Tcbs, tcbs': Tcbs, t: Task, priority: nat) {
    && t in tcbs && t in tcbs' && OthersKeep(tcbs, tcbs', t) && tcbs'[t].basePriority == priority
    && tcbs'[t].priority == if tcbs[t].priority == tcbs[t].basePriority then priority else tcbs[t].priority
  }

  lemma InheritedThenWaits(tcbs: Tcbs, raised: Tcbs, tcbs': Tcbs, holder: Task, waiter: Task)
    requires holder in tcbs && waiter in tcbs && holder in raised && raised == tcbs[holder := raised[holder]]
    requires raised[holder].priority == Max(tcbs[holder].priority, tcbs[waiter].priority)
    requires raised[holder].basePriority == tcbs[holder].basePriority
    requires waiter in tcbs' && tcbs' == raised[waiter := tcbs'[waiter]]
    requires tcbs'[waiter].priority == raised[waiter].priority
         && tcbs'[waiter].basePriority == raised[waiter].basePriority
    ensures InheritedFrom(tcbs, tcbs', holder, waiter)
  {
  }

  class Mutexes {
    const kernel: Kernel
    var holder: map<Mutex, Task>
    var count: map<Mutex, nat>
    ghost var floor: map<Mutex, nat>

    ghost function View(): State
      reads this, kernel
    {
      State(holder, count, floor, kernel.tcbs)
    }

    ghost predicate Valid()
      reads this, kernel
    {
      kernel.Valid() && Inv(View())
    }

    constructor (kernel: Kernel)
      requires kernel.Valid() && forall t ::
                t in kernel.tcbs ==>
                    kernel.tcbs[t].mutexesHeld == 0 && kernel.tcbs[t].priority == kernel.tcbs[t].basePriority
      ensures Valid() && this.kernel == kernel && holder == map[]
    {
      this.kernel := kernel;
      holder, count, floor := map[], map[], map[];
      assert forall t :: HeldBy(map[], t) == {};
      NobodyIsNoTask(kernel);
    }

    /** `xQueueCreateMutex`: the mutex is given once, by nobody, so that it can be taken. */
    method Create(m: Mutex)
      requires Valid() && m !in holder
      modifies this
      ensures Valid() && View() == State(old(holder)[m := NO_TASK], old(count)[m := 1], old(floor)[m := 0], kernel.tcbs)
    {
      hide Good, Agree, Deadlines;
      AgreeNew(holder, count, floor, kernel.tcbs, m);
      holder := holder[m := NO_TASK];
      count := count[m := 0];
      floor := floor[m := 0];
      count := count[m := count[m] + 1];
      assert count == old(count)[m := 1];
    }

    /** The critical section of `xQueueGenericReceive` on a mutex. */
    method Take(m: Mutex) returns (taken: bool)
      requires Valid() && m in holder && kernel.Running()
      modifies this, kernel
      ensures Valid() && kernel.Time() == old(kernel.Time()) && kernel.lists == old(kernel.lists)
           && kernel.currentTask == old(kernel.currentTask)
      ensures taken == (old(holder)[m] == NO_TASK)
      ensures if taken then IsUse(old(View()), View(), Use.Take(m, kernel.currentTask)) else View() == old(View())
      ensures taken ==> holder == old(holder)[m := kernel.currentTask] && count == old(count)[m := 0]
      ensures forall t :: t in kernel.tcbs ==> OthersKeep(old(kernel.tcbs), kernel.tcbs, t)
    {
      hide Good, Agree, Deadlines;
      Availability(holder, count, floor, kernel.tcbs, m);
      taken := count[m] > 0;
      if taken {
        count := count[m := count[m] - 1];
        var t := kernel.IncrementMutexHeldCount();
        AgreeTaken(holder, old(count), floor, old(kernel.tcbs), m, t);
        holder := holder[m := t];
        floor := floor[m := 0];
      }
    }

    /** The part of `xQueueGenericReceive` that blocks on a mutex: whoever holds it runs at no less than the
        priority of the task that now waits, until it gives this mutex back. */
    method Block(m: Mutex, ticksToWait: Tick)
      requires Valid() && m in holder && count[m] == 0 && kernel.Running() && 0 < ticksToWait
      modifies this, kernel
      ensures Valid() && kernel.currentTask == old(kernel.currentTask) && kernel.currentTask in kernel.tcbs
      ensures old(holder)[m] != NO_TASK
      ensures IsUse(old(View()), View(), Await(m, kernel.currentTask, kernel.tcbs[kernel.currentTask].wakeTime))
      ensures kernel.currentTask in kernel.lists.event && kernel.lists.event[kernel.currentTask] == Event(m)
      ensures holder == old(holder) && count == old(count)
           && InheritedFrom(old(kernel.tcbs), kernel.tcbs, holder[m], kernel.currentTask)
    {
      hide Good, Agree, Deadlines, IsRested, JoinedInOrder, Indefinite, IsUse, Inv, Raised, Inherited, InheritedFrom,
          Turns.Requeues, Turns.Leaves;
      ghost var s, running := View(), kernel.lists;
      Awaitable(s, m, kernel.currentTask);
      kernel.PriorityInherit(holder[m]);
      StillRunning(running, kernel.lists, holder[m], kernel.tcbs, kernel.currentTask);
      InheritedIs(s.tcbs, holder[m], s.tcbs[kernel.currentTask].priority, kernel.tcbs);
      floor := floor[m := Max(floor[m], old(kernel.tcbs)[kernel.currentTask].priority)];
      ghost var raised := kernel.tcbs;
      kernel.PlaceOnEventList(m, ticksToWait);
      InheritedThenWaits(s.tcbs, raised, kernel.tcbs, holder[m], kernel.currentTask);
      AwaitIs(s, m, kernel.currentTask, kernel.tcbs[kernel.currentTask].wakeTime, kernel.tcbs, floor);
    }

    /** `xQueueGenericSend` on a mutex. */
    method Give(m: Mutex) returns (passed: bool)
      requires Valid() && m in holder && kernel.currentTask in kernel.tcbs
      requires holder[m] != NO_TASK ==> holder[m] == kernel.currentTask && kernel.Running()
      modifies this, kernel
      ensures Valid() && passed == (old(holder)[m] != NO_TASK) && kernel.currentTask == old(kernel.currentTask)
      ensures if passed then IsUse(old(View()), View(), GiveBack(m)) else View() == old(View())
      ensures !passed ==> kernel.lists == old(kernel.lists)
      ensures passed ==> GivenBack(old(View()), View(), m)
      ensures var waiters := old(kernel.lists).Items(Event(m));
              kernel.lists.Items(Event(m)) == if passed && waiters != [] then waiters[1..] else waiters
    {
      hide Good, Agree, Deadlines, IsUse, GivenBack;
      Availability(holder, count, floor, kernel.tcbs, m);
      passed := count[m] < 1;
      if passed {
        CopyToMutex(m);
        if kernel.lists.Items(Event(m)) != [] {
          var higherPriority, waiter := kernel.RemoveFromEventList(m);
        }
      }
    }

    /** `prvCopyDataToQueue` on a mutex. */
    method CopyToMutex(m: Mutex)
      requires Valid() && m in holder && kernel.Running() && holder[m] == kernel.currentTask
      modifies this, kernel
      ensures Valid() && kernel.currentTask == old(kernel.currentTask) && kernel.currentTask in kernel.tcbs
      ensures IsUse(old(View()), View(), GiveBack(m)) && GivenBack(old(View()), View(), m)
      ensures kernel.lists.Items(Event(m)) == old(kernel.lists).Items(Event(m))
    {
      hide Good, Agree, Deadlines, IsRelisted;
      Availability(holder, count, floor, kernel.tcbs, m);
      StepKeeps(View(), GiveBack(m));
      ghost var lists := kernel.lists;
      var yieldRequired := kernel.PriorityDisinherit(holder[m]);
      if yieldRequired {
        RelistedWaiters(lists, kernel.lists, holder[m], kernel.tcbs, m);
      }
      holder := holder[m := NO_TASK];
      count := count[m := count[m] + 1];
      HeldCount(View(), old(holder)[m]);
    }

    /** `vTaskPrioritySet`, where it keeps what mutexes guarantee. */
    method PrioritySet(t: Task, newPriority: nat)
      requires Valid() && kernel.currentTask in kernel.tcbs && t in kernel.tcbs && newPriority < MAX_PRIORITIES
      requires Harmless(View(), t, newPriority)
      modifies kernel
      ensures Valid() && kernel.Time() == old(kernel.Time()) && IsUse(old(View()), View(), SetPriority(t, newPriority))
      ensures SetTo(old(kernel.tcbs), kernel.tcbs, t, newPriority)
    {
      hide Good, Agree, Deadlines, HeldBy, Harmless, IsRelisted, Turns.Requeues;
      StepKeeps(View(), SetPriority(t, newPriority));
      var yieldRequired := kernel.PrioritySet(t, newPriority);
    }

    // ----- What the kernel does besides -----

    /** Any step of the kernel that leaves the standing of tasks alone is one step of the protocol. */
    lemma StepsAside(before: State)
      requires Inv(before) && kernel.Valid() && View() == before.(tcbs := kernel.tcbs)
           && Aside(before.holder, before.tcbs, kernel.tcbs)
      ensures Valid() && IsUse(before, View(), Elsewhere(kernel.tcbs))
    {
      StepKeeps(before, Elsewhere(kernel.tcbs));
    }

    /** `vTaskDelay`, of a task that may hold mutexes. */
    method Delay(ticksToDelay: Tick)
      requires Valid() && kernel.Running() && 0 < ticksToDelay
      modifies kernel
      ensures Valid() && IsUse(old(View()), View(), Elsewhere(kernel.tcbs))
           && kernel.currentTask == old(kernel.currentTask)
      ensures kernel.Time() == Next(old(kernel.Time()), Deed.Block(kernel.currentTask, ticksToDelay))
    {
      hide Good, Agree, Deadlines, IsRested;
      HoldersKnown(View());
      kernel.DelayCurrent(ticksToDelay);
      StepsAside(old(View()));
    }

    /** Blocking on an event group, of a task that may hold mutexes. */
    method AwaitEvent(owner: nat, itemValue: nat, ticksToWait: Tick)
      requires Valid() && kernel.Running() && 0 < ticksToWait && kernel.schedulerSuspended != 0
      modifies kernel
      ensures Valid() && IsUse(old(View()), View(), Elsewhere(kernel.tcbs))
           && kernel.currentTask == old(kernel.currentTask)
      ensures kernel.lists.Get(Event(owner)) == InsertEnd(old(kernel.lists).Get(Event(owner)), kernel.currentTask)
    {
      hide Good, Agree, Deadlines, IsRested, InUse, Indefinite;
      HoldersKnown(View());
      kernel.PlaceOnUnorderedEventList(owner, itemValue, ticksToWait);
      StepsAside(old(View()));
    }

    /** Blocking on a queue that is no mutex, of a task that may hold mutexes. */
    method AwaitQueue(owner: nat, ticksToWait: Tick)
      requires Valid() && kernel.Running() && 0 < ticksToWait && owner !in holder
      modifies kernel
      ensures Valid() && IsUse(old(View()), View(), Elsewhere(kernel.tcbs))
           && kernel.currentTask == old(kernel.currentTask)
      ensures kernel.currentTask in kernel.lists.event && kernel.lists.event[kernel.currentTask] == Event(owner)
    {
      hide Good, Agree, Deadlines, IsRested, JoinedInOrder, Indefinite;
      HoldersKnown(View());
      kernel.PlaceOnEventList(owner, ticksToWait);
      StepsAside(old(View()));
    }

    /** `xTaskGenericCreate` meanwhile. */
    method CreateTask(granted: bool, t: Task, priority: nat) returns (passed: bool, yieldRequired: bool)
      requires Valid() && priority < MAX_PRIORITIES && kernel.currentNumberOfTasks < MAX_UBASE
      requires t != NO_TASK && t !in kernel.tcbs
           && (kernel.currentTask != NO_TASK ==> kernel.currentTask in kernel.tcbs)
      modifies kernel
      ensures Valid() && passed == granted && IsUse(old(View()), View(), Elsewhere(kernel.tcbs))
      ensures kernel.tcbs == if granted then old(kernel.tcbs)[t := NewTcb(priority)] else old(kernel.tcbs)
    {
      hide Good, Agree, Deadlines, IsNew, Outranked;
      HoldersKnown(View());
      passed, yieldRequired := kernel.Create(granted, t, priority);
      StepsAside(old(View()));
    }

    /** `prvCheckTasksWaitingTermination` meanwhile, with no deleted task among the holders. */
    method Reap()
      requires Valid() && kernel.Running() && kernel.schedulerSuspended == 0
      requires forall m :: m in holder && holder[m] != NO_TASK ==> !kernel.lists.Contains(Termination, holder[m])
      modifies kernel
      ensures Valid() && IsUse(old(View()), View(), Elsewhere(kernel.tcbs))
           && kernel.currentTask == old(kernel.currentTask)
      ensures forall t :: t in kernel.tcbs <==> t in old(kernel.tcbs) && !old(kernel.lists).Contains(Termination, t)
    {
      hide Good, Agree, Deadlines;
      HoldersKnown(View());
      kernel.CheckTasksWaitingTermination();
      NobodyIsNoTask(kernel);
      StepsAside(old(View()));
    }
  }

  /** A change of priority keeps the invariant if and only if it is harmless: any other lets the holder of a mutex fall
      below a priority at which a task has blocked on it. */
  lemma SetPriorityExact(s: State, t: Task, priority: nat)
    requires Inv(s) && Enabled(s, SetPriority(t, priority))
    ensures Inv(AfterUse(s, SetPriority(t, priority))) <==> Harmless(s, t, priority)
  {
    if Harmless(s, t, priority) {
      HarmlessKeeps(s, t, priority);
    } else {
      HarmfulLowers(s, t, priority);
    }
  }

  lemma HarmlessKeeps(s: State, t: Task, priority: nat)
    requires Inv(s) && Enabled(s, SetPriority(t, priority)) && Harmless(s, t, priority)
    ensures Inv(AfterUse(s, SetPriority(t, priority)))
  {
    hide Agree, HeldBy, Harmless;
    HarmlessFloors(s, t, priority);
    FloorsKept(s.holder, s.count, s.floor, s.tcbs);
    AgreeKept(s.holder, s.count, s.floor, s.tcbs, AfterUse(s, SetPriority(t, priority)).tcbs);
  }

  lemma HarmlessFloors(s: State, t: Task, priority: nat)
    requires t in s.tcbs && Harmless(s, t, priority)
    ensures s.tcbs[t].priority == s.tcbs[t].basePriority ==>
              forall m :: m in s.holder && m in s.floor && s.holder[m] == t ==> s.floor[m] <= priority
  {
    assert forall m :: m in s.holder && s.holder[m] == t ==> m in HeldBy(s.holder, t);
  }

  lemma HarmfulLowers(s: State, t: Task, priority: nat)
    requires Inv(s) && Enabled(s, SetPriority(t, priority)) && !Harmless(s, t, priority)
    ensures !Inv(AfterUse(s, SetPriority(t, priority)))
  {
    var s' := AfterUse(s, SetPriority(t, priority));
    var m :| m in HeldBy(s.holder, t) && m in s.floor && s.floor[m] > priority;
    assert s'.holder[m] == t && s'.floor[m] == s.floor[m];
  }

  /** A task of priority 2 takes a mutex, another of priority 2 blocks on it, and the holder is set to priority 1: it
      keeps the mutex and runs below the task that waits. */
  lemma HolderSetBelow(s: State)
    requires 2 < MAX_PRIORITIES
    requires s == State(map[0 := NO_TASK], map[0 := 1], map[0 := 0],
              map[1 := Tcb(2, 2, 0, 0, 0), 2 := Tcb(2, 2, 0, 0, 0)])
    ensures Inv(s) && Run(s, [Take(0, 1), Await(0, 2, 0)])
    ensures var s' := Last(s, [Take(0, 1), Await(0, 2, 0)]);
            && Enabled(s', SetPriority(1, 1))
            && var s'' := AfterUse(s', SetPriority(1, 1));
               s''.holder[0] == 1 && s''.tcbs[1].priority == 1 && s''.tcbs[2].priority == 2
  {
    assert forall t :: t != NO_TASK ==> HeldBy(s.holder, t) == {};
    var s1 := AfterUse(s, Take(0, 1));
    var s2 := AfterUse(s1, Await(0, 2, 0));
    var ds: seq<Use> := [Take(0, 1), Await(0, 2, 0)];
    assert ds[1..] == [Await(0, 2, 0)] && ds[1..][1..] == [];
    assert Last(s1, ds[1..]) == s2;
  }
}
