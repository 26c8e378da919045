/** What the lists of tasks.c hold while the kernel runs, and how each list operation keeps it. */
module KernelLists {
  import opened Common
  import opened Ticks
  import opened Rings
  import opened SortedLists
  import opened TaskLists
  import Turns

  /** configMAX_PRIORITIES. */
  type Priorities = n: nat | 1 <= n witness 4
  const MAX_PRIORITIES: Priorities

  /** No task: `pxCurrentTCB` before the first task is created. */
  const NO_TASK: Task := 0

  // ----- What holds of the lists -----

  /** Every task is on one list, on the ready list of its own priority if it is ready, and only blocked
      tasks wait for events; except that the items of the tasks in `off` may be between lists. */
  ghost predicate PlacedIn(ls: Lists, tcbs: Tcbs, off: set<Task>) {
    && ls.Consistent() && ls.generic.Keys <= tcbs.Keys && (forall t :: t in tcbs && t !in off ==> t in ls.generic)
    && (forall t :: t in tcbs ==> t != NO_TASK && Ranked(tcbs[t]))
    && (forall t :: t in ls.generic && ls.generic[t].Ready? ==> ls.generic[t].priority == tcbs[t].priority)
    && (forall t :: t in ls.generic && ls.generic[t].Delayed? ==> ls.generic[t].which < 2)
    && (forall t :: t in ls.event ==> t in tcbs && (t !in off ==> Blocked(ls, t)))
  }

  predicate Ranked(tcb: Tcb) {
    tcb.priority < MAX_PRIORITIES && tcb.basePriority < MAX_PRIORITIES
  }

  ghost predicate Blocked(ls: Lists, t: Task) {
    t in ls.generic && (ls.generic[t].Delayed? || ls.generic[t].Suspended?)
  }

  /** No ready list above `top` has a task on it. */
  ghost predicate ToppedBy(ls: Lists, top: nat) {
    top < MAX_PRIORITIES && forall p :: top < p ==> ls.Items(Ready(p)) == []
  }

  function WakeTimes(items: seq<Task>, tcbs: Tcbs): (v: seq<int>)
    ensures |v| == |items|
  {
    seq(|items|, i requires 0 <= i < |items| => if items[i] in tcbs then tcbs[items[i]].wakeTime else 0)
  }

  /** The delayed lists are in wake order, and the current one holds only tasks due after `tick`,
      none of them before `next`. */
  ghost predicate TimedBy(ls: Lists, tcbs: Tcbs, current: nat, tick: int, next: Tick) {
    && current < 2
    && (forall k :: Sorted(WakeTimes(ls.Items(Delayed(k)), tcbs)))
    && (forall t :: t in ls.generic && t in tcbs && ls.generic[t] == Delayed(current) ==>
          tick < tcbs[t].wakeTime && next <= tcbs[t].wakeTime)
  }

  /** What the kernel keeps of its lists, whatever it does. */
  ghost predicate Good(ls: Lists, tcbs: Tcbs, off: set<Task>, top: nat, current: nat, tick: int, next: Tick) {
    PlacedIn(ls, tcbs, off) && ToppedBy(ls, top) && TimedBy(ls, tcbs, current, tick, next)
  }

  /** taskEVENT_LIST_ITEM_VALUE_IN_USE, the top bit of `TickType_t`. */
  type UseBit = b: int | 2 <= b witness 0x8000
  const IN_USE: UseBit

  /** A value below the bit, marked in use by something other than a priority. */
  function InUse(value: nat): (r: nat)
    ensures IN_USE <= r < 2 * IN_USE
    ensures value < IN_USE ==> r - IN_USE == value
    ensures IN_USE <= value < 2 * IN_USE ==> r == value
  {
    value % IN_USE + IN_USE
  }

  function EventValues(items: seq<Task>, tcbs: Tcbs): (v: seq<int>)
    ensures |v| == |items|
  {
    seq(|items|, i requires 0 <= i < |items| => if items[i] in tcbs then tcbs[items[i]].eventValue else 0)
  }

  /** The task has joined an event list behind everyone whose event item has no larger value than its own, and in front
      of the next, whose value is larger. */
  ghost predicate JoinedInOrder(items: seq<Task>, items': seq<Task>, t: Task, value: nat, tcbs: Tcbs) {
    exists p: nat :: JoinedAt(items, items', p, t, value, tcbs)
  }

  ghost predicate JoinedAt(items: seq<Task>, items': seq<Task>, p: nat, t: Task, value: nat, tcbs: Tcbs) {
    && p <= |items| && items' == items[..p] + [t] + items[p..]
    && (forall i :: 0 <= i < p ==> items[i] in tcbs && tcbs[items[i]].eventValue <= value)
    && (p < |items| ==> items[p] in tcbs && value < tcbs[items[p]].eventValue)
  }

  lemma JoinsInOrder(items: seq<Task>, t: Task, value: nat, tcbs: Tcbs)
    requires forall x :: x in items ==> x in tcbs
    ensures var p := Place(EventValues(items, tcbs), value);
            p <= |items| && JoinedInOrder(items, items[..p] + [t] + items[p..], t, value, tcbs)
  {
    var v := EventValues(items, tcbs);
    var p := Place(v, value);
    assert forall i :: 0 <= i < |items| ==> items[i] in tcbs && v[i] == tcbs[items[i]].eventValue;
    assert JoinedAt(items, items[..p] + [t] + items[p..], p, t, value, tcbs);
  }

  /** Tasks in the order of their priorities. */
  ghost predicate ByPriority(items: seq<Task>, tcbs: Tcbs) {
    forall i, j :: 0 <= i < j < |items| && items[i] in tcbs && items[j] in tcbs ==>
        tcbs[items[i]].priority >= tcbs[items[j]].priority
  }

  /** The value of the task's event item orders it by its priority. */
  predicate Orders(tcb: Tcb) {
    tcb.eventValue + tcb.priority == MAX_PRIORITIES
  }

  /** So tasks that wait in the order of their priorities go on doing so, and among equals the newcomer is the last. */
  lemma JoinedByPriority(items: seq<Task>, items': seq<Task>, t: Task, tcbs: Tcbs) returns (p: nat)
    requires t in tcbs && JoinedInOrder(items, items', t, tcbs[t].eventValue, tcbs) && ByPriority(items, tcbs)
    requires Orders(tcbs[t]) && forall x :: x in items && x in tcbs ==> Orders(tcbs[x])
    ensures ByPriority(items', tcbs)
    ensures p <= |items| && items' == items[..p] + [t] + items[p..]
    ensures forall i :: p <= i < |items| && items[i] in tcbs ==> tcbs[items[i]].priority < tcbs[t].priority
  {
    hide ByPriority;
    p :| JoinedAt(items, items', p, t, tcbs[t].eventValue, tcbs);
    LowerBehind(items, items', p, t, tcbs);
    assert forall i :: 0 <= i < p ==> items[i] in items && tcbs[items[i]].priority >= tcbs[t].priority;
    InsertedByPriority(items, p, t, tcbs);
  }

  lemma LowerBehind(items: seq<Task>, items': seq<Task>, p: nat, t: Task, tcbs: Tcbs)
    requires t in tcbs && JoinedAt(items, items', p, t, tcbs[t].eventValue, tcbs) && ByPriority(items, tcbs)
    requires Orders(tcbs[t]) && forall x :: x in items && x in tcbs ==> Orders(tcbs[x])
    ensures forall i :: p <= i < |items| && items[i] in tcbs ==> tcbs[items[i]].priority < tcbs[t].priority
  {
    if p < |items| {
      assert items[p] in items;
    }
  }

  lemma InsertedByPriority(items: seq<Task>, p: nat, t: Task, tcbs: Tcbs)
    requires p <= |items| && t in tcbs && ByPriority(items, tcbs)
    requires forall i :: 0 <= i < p && items[i] in tcbs ==> tcbs[items[i]].priority >= tcbs[t].priority
    requires forall i :: p <= i < |items| && items[i] in tcbs ==> tcbs[items[i]].priority < tcbs[t].priority
    ensures ByPriority(items[..p] + [t] + items[p..], tcbs)
  {
    var items' := items[..p] + [t] + items[p..];
    forall i, j | 0 <= i < j < |items'| && items'[i] in tcbs && items'[j] in tcbs
      ensures tcbs[items'[i]].priority >= tcbs[items'[j]].priority
    {
      assert i != p ==> items'[i] == items[if i < p then i else i - 1];
      assert j != p ==> items'[j] == items[if j < p then j else j - 1];
    }
  }

  // ----- How each list operation keeps it -----

  /** `uxListRemove` of a generic item. */
  lemma GoodRemoveGeneric(ls: Lists, tcbs: Tcbs, off: set<Task>, top: nat, current: nat, tick: int, next: Tick, t: Task)
    requires Good(ls, tcbs, off, top, current, tick, next) && t in ls.generic
    ensures Good(ls.RemoveGeneric(t), tcbs, off + {t}, top, current, tick, next)
  {
    RemovePlaced(ls, tcbs, off, top, t);
    hide PlacedIn, ToppedBy;
    ConsistentOf(ls, tcbs, off);
    RemoveTimed(ls, tcbs, current, tick, next, t);
  }

  lemma GoodIndices(ls: Lists, tcbs: Tcbs, off: set<Task>, top: nat, current: nat, tick: int, next: Tick)
    requires Good(ls, tcbs, off, top, current, tick, next)
    ensures current < 2 && top < MAX_PRIORITIES && ls.Consistent() && (forall t :: t in ls.generic ==> t in tcbs)
    ensures forall t :: t in tcbs ==> Ranked(tcbs[t])
  {
  }

  lemma WaitersKnown(ls: Lists, tcbs: Tcbs, off: set<Task>, top: nat, current: nat, tick: int, next: Tick, owner: nat)
    requires Good(ls, tcbs, off, top, current, tick, next)
    ensures forall t :: t in ls.Items(Event(owner)) ==> t in tcbs
  {
    assert forall t :: t in ls.Items(Event(owner)) ==> ls.Contains(Event(owner), t);
  }

  lemma ConsistentOf(ls: Lists, tcbs: Tcbs, off: set<Task>)
    requires PlacedIn(ls, tcbs, off)
    ensures ls.Consistent() && forall t :: t in ls.generic ==> t in tcbs
  {
  }

  lemma RemovePlaced(ls: Lists, tcbs: Tcbs, off: set<Task>, top: nat, t: Task)
    requires PlacedIn(ls, tcbs, off) && ToppedBy(ls, top) && t in ls.generic
    ensures PlacedIn(ls.RemoveGeneric(t), tcbs, off + {t}) && ToppedBy(ls.RemoveGeneric(t), top)
  {
    var r := ls.RemoveGeneric(t);
    forall p | top < p
      ensures r.Items(Ready(p)) == []
    {
      assert t in ls.Items(Ready(p)) <==> ls.Contains(Ready(p), t);
    }
  }

  lemma RemoveTimed(ls: Lists, tcbs: Tcbs, current: nat, tick: int, next: Tick, t: Task)
    requires ls.Consistent() && TimedBy(ls, tcbs, current, tick, next) && t in ls.generic
    ensures TimedBy(ls.RemoveGeneric(t), tcbs, current, tick, next)
  {
    var r := ls.RemoveGeneric(t);
    forall k
      ensures Sorted(WakeTimes(r.Items(Delayed(k)), tcbs))
    {
      if ls.generic[t] == Delayed(k) {
        assert ls.Contains(Delayed(k), t);
        SortedRemove(ls.Items(Delayed(k)), IndexOf(ls.Items(Delayed(k)), t), tcbs);
      } else {
        assert r.Get(Delayed(k)) == ls.Get(Delayed(k));
      }
    }
  }

  lemma SortedRemove(items: seq<Task>, i: nat, tcbs: Tcbs)
    requires i < |items| && Sorted(WakeTimes(items, tcbs))
    ensures Sorted(WakeTimes(items[..i] + items[i + 1..], tcbs))
  {
    var v := WakeTimes(items, tcbs);
    assert WakeTimes(items[..i] + items[i + 1..], tcbs) == v[..i] + v[i + 1..];
  }

  /** `uxListRemove` of an event item. */
  lemma GoodRemoveEvent(ls: Lists, tcbs: Tcbs, off: set<Task>, top: nat, current: nat, tick: int, next: Tick, t: Task)
    requires Good(ls, tcbs, off, top, current, tick, next)
    ensures Good(ls.RemoveEvent(t), tcbs, off, top, current, tick, next)
  {
    SameGeneric(ls, ls.RemoveEvent(t), tcbs, top, current, tick, next);
  }

  /** A change of event lists alone leaves the other lists as they are. */
  lemma SameGeneric(ls: Lists, r: Lists, tcbs: Tcbs, top: nat, current: nat, tick: int, next: Tick)
    requires ls.Consistent() && ToppedBy(ls, top) && TimedBy(ls, tcbs, current, tick, next) && r.generic == ls.generic
    requires forall id: ListId :: id.ForGeneric() ==> r.Get(id) == ls.Get(id)
    ensures ToppedBy(r, top) && TimedBy(r, tcbs, current, tick, next)
  {
    forall p | top < p
      ensures r.Items(Ready(p)) == []
    {
      assert r.Get(Ready(p)) == ls.Get(Ready(p));
    }
    forall k
      ensures Sorted(WakeTimes(r.Items(Delayed(k)), tcbs))
    {
      assert r.Get(Delayed(k)) == ls.Get(Delayed(k));
    }
  }

  /** `prvAddTaskToReadyList`. */
  lemma GoodReady(ls: Lists, tcbs: Tcbs, off: set<Task>, top: nat, current: nat, tick: int, next: Tick, t: Task)
    requires Good(ls, tcbs, off, top, current, tick, next) && t in tcbs && t !in ls.generic && t !in ls.event
    ensures Good(ls.AppendGeneric(Ready(tcbs[t].priority), t), tcbs, off - {t}, Max(top, tcbs[t].priority), current,
              tick, next)
  {
    var r, top' := ls.AppendGeneric(Ready(tcbs[t].priority), t), Max(top, tcbs[t].priority);
    forall p | top' < p
      ensures r.Items(Ready(p)) == []
    {
      assert r.Get(Ready(p)) == ls.Get(Ready(p));
    }
    forall k
      ensures Sorted(WakeTimes(r.Items(Delayed(k)), tcbs))
    {
      assert r.Get(Delayed(k)) == ls.Get(Delayed(k));
    }
  }

  /** A task put on the suspended or the termination list. */
  lemma GoodPark(ls: Lists, tcbs: Tcbs, off: set<Task>, top: nat, current: nat, tick: int, next: Tick, t: Task,
                 id: ListId)
    requires Good(ls, tcbs, off, top, current, tick, next) && t in tcbs && t !in ls.generic
    requires id.Suspended? || (id.Termination? && t !in ls.event)
    ensures Good(ls.AppendGeneric(id, t), tcbs, off - {t}, top, current, tick, next)
  {
    var r := ls.AppendGeneric(id, t);
    forall p | top < p
      ensures r.Items(Ready(p)) == []
    {
      assert r.Get(Ready(p)) == ls.Get(Ready(p));
    }
    forall k
      ensures Sorted(WakeTimes(r.Items(Delayed(k)), tcbs))
    {
      assert r.Get(Delayed(k)) == ls.Get(Delayed(k));
    }
  }

  /** An event item put on an event list, or on the pending ready list, of a task that is blocked or
      about to be. */
  lemma GoodEvent(ls: Lists, tcbs: Tcbs, off: set<Task>, top: nat, current: nat, tick: int, next: Tick, t: Task,
                  r: Lists, id: ListId)
    requires Good(ls, tcbs, off, top, current, tick, next) && t in tcbs && (t in off || Blocked(ls, t))
    requires r.Consistent() && r.generic == ls.generic && r.event == ls.event[t := id] && !id.ForGeneric()
    requires forall id' :: id' != id ==> r.Get(id') == ls.Get(id')
    ensures Good(r, tcbs, off, top, current, tick, next)
  {
    SameGeneric(ls, r, tcbs, top, current, tick, next);
  }

  /** A change of a task control block that touches neither the priority of a ready task nor the wake
      time of a delayed one. */
  lemma GoodTcb(ls: Lists, tcbs: Tcbs, off: set<Task>, top: nat, current: nat, tick: int, next: Tick, t: Task, tcb: Tcb)
    requires Good(ls, tcbs, off, top, current, tick, next) && t in tcbs && Ranked(tcb)
    requires t in ls.generic && ls.generic[t].Ready? ==> tcb.priority == tcbs[t].priority
    requires t in ls.generic && ls.generic[t].Delayed? ==> tcb.wakeTime == tcbs[t].wakeTime
    ensures Good(ls, tcbs[t := tcb], off, top, current, tick, next)
  {
    forall k
      ensures WakeTimes(ls.Items(Delayed(k)), tcbs[t := tcb]) == WakeTimes(ls.Items(Delayed(k)), tcbs)
    {
      assert t in ls.Items(Delayed(k)) <==> ls.Contains(Delayed(k), t);
    }
  }

  /** `vListInsert` on one of the delayed lists. */
  lemma GoodDelay(ls: Lists, tcbs: Tcbs, off: set<Task>, top: nat, current: nat, tick: int, next: Tick, next': Tick,
                  t: Task, k: nat)
    requires Good(ls, tcbs, off, top, current, tick, next) && t in tcbs && t !in ls.generic && k < 2
    requires next' <= next && (k == current ==> tick < tcbs[t].wakeTime && next' <= tcbs[t].wakeTime)
    ensures var p := Place(WakeTimes(ls.Items(Delayed(k)), tcbs), tcbs[t].wakeTime);
            Good(ls.InsertGeneric(Delayed(k), p, t), tcbs, off - {t}, top, current, tick, next')
  {
    var p := Place(WakeTimes(ls.Items(Delayed(k)), tcbs), tcbs[t].wakeTime);
    DelayPlaced(ls, tcbs, off, top, t, k, p);
    DelaySorted(ls, tcbs, t, k, p);
    hide PlacedIn, ToppedBy, Lists.Consistent;
    ConsistentOf(ls, tcbs, off);
  }

  lemma DelayPlaced(ls: Lists, tcbs: Tcbs, off: set<Task>, top: nat, t: Task, k: nat, p: nat)
    requires PlacedIn(ls, tcbs, off) && ToppedBy(ls, top) && t in tcbs && t !in ls.generic && k < 2
         && p <= |ls.Items(Delayed(k))|
    ensures PlacedIn(ls.InsertGeneric(Delayed(k), p, t), tcbs, off - {t})
         && ToppedBy(ls.InsertGeneric(Delayed(k), p, t), top)
  {
    var r := ls.InsertGeneric(Delayed(k), p, t);
    forall q | top < q
      ensures r.Items(Ready(q)) == []
    {
      assert r.Get(Ready(q)) == ls.Get(Ready(q));
    }
  }

  lemma DelaySorted(ls: Lists, tcbs: Tcbs, t: Task, k: nat, p: nat)
    requires ls.Consistent() && t in tcbs && t !in ls.generic
    requires forall k' :: Sorted(WakeTimes(ls.Items(Delayed(k')), tcbs))
    requires p == Place(WakeTimes(ls.Items(Delayed(k)), tcbs), tcbs[t].wakeTime)
    ensures forall k' :: Sorted(WakeTimes(ls.InsertGeneric(Delayed(k), p, t).Items(Delayed(k')), tcbs))
  {
    var r := ls.InsertGeneric(Delayed(k), p, t);
    InsertedSorted(ls.Items(Delayed(k)), p, t, tcbs);
    assert r.Items(Delayed(k)) == ls.Items(Delayed(k))[..p] + [t] + ls.Items(Delayed(k))[p..];
    hide Lists.Consistent, Sorted, WakeTimes, Lists.InsertGeneric;
    forall k'
      ensures Sorted(WakeTimes(r.Items(Delayed(k')), tcbs))
    {
      if k' != k {
        assert r.Get(Delayed(k')) == ls.Get(Delayed(k'));
      }
    }
  }

  lemma InsertedSorted(items: seq<Task>, p: nat, t: Task, tcbs: Tcbs)
    requires t in tcbs && Sorted(WakeTimes(items, tcbs)) && p == Place(WakeTimes(items, tcbs), tcbs[t].wakeTime)
    ensures p <= |items| && Sorted(WakeTimes(items[..p] + [t] + items[p..], tcbs))
  {
    var v := WakeTimes(items, tcbs);
    InsertKeepsSorted(v, tcbs[t].wakeTime);
    assert WakeTimes(items[..p] + [t] + items[p..], tcbs) == v[..p] + [tcbs[t].wakeTime as int] + v[p..];
  }

  /** `listGET_OWNER_OF_NEXT_ENTRY` on a ready list. */
  lemma GoodWalk(ls: Lists, tcbs: Tcbs, off: set<Task>, top: nat, current: nat, tick: int, next: Tick, p: nat)
    requires Good(ls, tcbs, off, top, current, tick, next) && ls.Consistent() && ls.Items(Ready(p)) != []
    ensures Good(ls.WalkReady(p), tcbs, off, top, current, tick, next)
  {
  }

  /** The search for the highest non-empty ready list may go one down as long as some task is ready. */
  lemma GoodLower(ls: Lists, tcbs: Tcbs, off: set<Task>, top: nat, current: nat, tick: int, next: Tick)
    requires Good(ls, tcbs, off, top, current, tick, next) && ls.Items(Ready(top)) == [] && SomeReady(ls)
    ensures top > 0 && Good(ls, tcbs, off, top - 1, current, tick, next)
  {
  }

  ghost predicate SomeReady(ls: Lists) {
    exists p :: ls.Items(Ready(p)) != []
  }

  /** The next task of a ready list in turn, and the list with its index moved on to that task. */
  ghost predicate IsTurn(ls: Lists, ls': Lists, p: nat, t: Task) {
    && ls.Consistent() && ls.Items(Ready(p)) != [] && ls' == ls.WalkReady(p)
    && ls.Get(Ready(p)).at <= |ls.Items(Ready(p))| && t == ls.Get(Ready(p)).Upcoming()[0]
  }

  lemma ReadyRing(ls: Lists, p: nat)
    requires ls.Consistent() && ls.Items(Ready(p)) != []
    ensures var r, r' := ls.Get(Ready(p)), ls.WalkReady(p).Get(Ready(p));
            r.at <= |r.items| && 0 < r'.at <= |r'.items| && r'.items == r.items
                && r'.items[r'.at - 1] == r.Upcoming()[0]
  {
    WalkStep(ls.Get(Ready(p)), ls.Items(Ready(p))[0]);
  }

  lemma NotWaiting(ls: Lists, tcbs: Tcbs, t: Task)
    requires PlacedIn(ls, tcbs, {}) && t in ls.generic && ls.generic[t].Ready?
    ensures t !in ls.event
  {
  }

  /** No ready task has a priority above `p`. */
  ghost predicate HighestReady(ls: Lists, tcbs: Tcbs, p: nat) {
    forall t :: t in ls.generic && ls.generic[t].Ready? ==> t in tcbs && tcbs[t].priority <= p
  }

  /** A new task at the end of the ready list of its priority. */
  ghost predicate IsNew(ls: Lists, ls': Lists, p: nat, t: Task) {
    ls.Consistent() && t !in ls.generic && ls' == ls.AppendGeneric(Ready(p), t)
  }

  lemma NewElsewhere(ls: Lists, ls': Lists, p: nat, t: Task, k: nat)
    requires IsNew(ls, ls', p, t)
    ensures ls'.Get(Delayed(k)) == ls.Get(Delayed(k)) && ls'.generic == ls.generic[t := Ready(p)]
  {
  }

  /** A task whose generic item is now at the end of list `id`, and whose event item is on none. */
  ghost predicate IsMoved(ls: Lists, ls': Lists, t: Task, id: ListId) {
    && ls.Consistent() && t in ls.generic && id.ForGeneric()
    && ls' == ls.RemoveGeneric(t).RemoveEvent(t).AppendGeneric(id, t)
  }

  /** Some tasks, all of them deleted before, have been forgotten; the others are where they were. */
  ghost predicate Reaping(ls: Lists, tcbs: Tcbs, ls': Lists, tcbs': Tcbs) {
    && (forall t :: t in tcbs' ==> t in tcbs && tcbs'[t] == tcbs[t])
    && (forall t :: t in tcbs && t !in tcbs' ==> ls.Contains(Termination, t))
    && ls'.generic == (map t | t in ls.generic && t in tcbs' :: ls.generic[t]) && ls'.event == ls.event
    && forall id :: id != Termination ==> ls'.Get(id) == ls.Get(id)
  }

  /** The first deleted task has been forgotten. */
  ghost predicate IsReap(ls: Lists, tcbs: Tcbs, ls': Lists, tcbs': Tcbs) {
    && ls.Consistent() && ls.Items(Termination) != []
    && var t := ls.Items(Termination)[0];
       t in ls.generic && ls.generic[t] == Termination && ls' == ls.RemoveGeneric(t) && tcbs' == tcbs - {t}
  }

  lemma Reapable(ls: Lists, tcbs: Tcbs, top: nat, current: nat, tick: int, next: Tick)
    requires Good(ls, tcbs, {}, top, current, tick, next) && ls.Items(Termination) != []
    ensures var t := ls.Items(Termination)[0];
            && t in tcbs && t in ls.generic && ls.generic[t] == Termination && t !in ls.event && ls.Consistent()
            && |ls.RemoveGeneric(t).Items(Termination)| == |ls.Items(Termination)| - 1
  {
    assert ls.Contains(Termination, ls.Items(Termination)[0]);
  }

  /** Forgetting the first deleted task. */
  lemma GoodReap(ls: Lists, tcbs: Tcbs, top: nat, current: nat, tick: int, next: Tick)
    requires Good(ls, tcbs, {}, top, current, tick, next) && ls.Items(Termination) != []
    ensures var t := ls.Items(Termination)[0];
            && ls.Consistent() && t in ls.generic && t in tcbs && ls.generic[t] == Termination
            && var ls', tcbs' := ls.RemoveGeneric(t), tcbs - {t};
               && Good(ls', tcbs', {}, top, current, tick, next) && IsReap(ls, tcbs, ls', tcbs')
               && |tcbs'| == |tcbs| - 1 && |ls'.Items(Termination)| == |ls.Items(Termination)| - 1
               && ls'.Items(PendingReady) == ls.Items(PendingReady)
               && forall start :: Deadlines(ls', tcbs', current, start) == Deadlines(ls, tcbs, current, start)
  {
    hide Lists.Consistent, PlacedIn, ToppedBy, TimedBy;
    var t := ls.Items(Termination)[0];
    Reapable(ls, tcbs, top, current, tick, next);
    GoodRemoveGeneric(ls, tcbs, {}, top, current, tick, next, t);
    assert {} + {t} == {t};
    GoodForget(ls.RemoveGeneric(t), tcbs, top, current, tick, next, t);
    assert ls.RemoveGeneric(t).Get(PendingReady) == ls.Get(PendingReady);
    forall start
      ensures Deadlines(ls.RemoveGeneric(t), tcbs - {t}, current, start) == Deadlines(ls, tcbs, current, start)
    {
      NotDelayed(ls, tcbs, current, start, t);
      NoDeadline(ls, tcbs, ls.RemoveGeneric(t), tcbs - {t}, current, start, t);
    }
  }

  lemma ReapMore(ls: Lists, tcbs: Tcbs, ls1: Lists, tcbs1: Tcbs, ls2: Lists, tcbs2: Tcbs)
    requires Reaping(ls, tcbs, ls1, tcbs1) && IsReap(ls1, tcbs1, ls2, tcbs2)
    ensures Reaping(ls, tcbs, ls2, tcbs2)
  {
    hide Lists.Consistent;
  }

  lemma ReapedAll(ls: Lists, tcbs: Tcbs, ls': Lists, tcbs': Tcbs)
    requires Reaping(ls, tcbs, ls', tcbs') && PlacedIn(ls', tcbs', {}) && ls'.Items(Termination) == []
    ensures forall t :: t in tcbs' <==> t in tcbs && !ls.Contains(Termination, t)
  {
    forall t | t in tcbs'
      ensures !ls.Contains(Termination, t)
    {
      assert t in ls'.Items(Termination) <==> ls'.Contains(Termination, t);
    }
  }

  /** A ready task at the end of the ready list of its priority; any other task stays where it is. */
  ghost predicate IsRelisted(ls: Lists, ls': Lists, t: Task, tcbs: Tcbs) {
    && ls.Consistent() && t in ls.generic && t in tcbs
    && ls' == if ls.generic[t].Ready? then ls.RemoveGeneric(t).AppendGeneric(Ready(tcbs[t].priority), t) else ls
  }

  lemma ReadyOwn(ls: Lists, tcbs: Tcbs, t: Task)
    requires PlacedIn(ls, tcbs, {}) && t in ls.generic && t in tcbs
    ensures ls.generic[t].Ready? ==> ls.generic[t] == Ready(tcbs[t].priority) && t !in ls.event
  {
  }

  /** Two control blocks differ in priorities and the value of the event item at most. */
  predicate SameButPriority(a: Tcb, b: Tcb) {
    a.mutexesHeld == b.mutexesHeld && a.wakeTime == b.wakeTime
  }

  /** A control block after `vTaskPrioritySet`. */
  function Reprioritised(tcb: Tcb, newPriority: nat): Tcb
    requires newPriority < MAX_PRIORITIES
  {
    tcb.(priority := if tcb.basePriority == tcb.priority then newPriority else tcb.priority,
         basePriority := newPriority,
         eventValue := if tcb.eventValue < IN_USE then MAX_PRIORITIES - newPriority else tcb.eventValue)
  }

  /** A control block after `vTaskPriorityInherit`. */
  function Raised(tcb: Tcb, priority: nat): Tcb
    requires priority < MAX_PRIORITIES
  {
    tcb.(priority := priority,
         eventValue := if tcb.eventValue < IN_USE then MAX_PRIORITIES - priority else tcb.eventValue)
  }

  /** A control block after `xTaskPriorityDisinherit`. */
  function Lowered(tcb: Tcb): Tcb
    requires tcb.mutexesHeld > 0 && Ranked(tcb)
  {
    if tcb.priority != tcb.basePriority && tcb.mutexesHeld == 1 then
      tcb.(mutexesHeld := 0, priority := tcb.basePriority, eventValue := MAX_PRIORITIES - tcb.basePriority)
    else
      tcb.(mutexesHeld := tcb.mutexesHeld - 1)
  }

  lemma NoneDelayed(ls: Lists, tcbs: Tcbs, k: nat)
    requires PlacedIn(ls, tcbs, {}) && ls.Items(Delayed(k)) == []
    ensures forall t :: t in ls.generic ==> ls.generic[t] != Delayed(k)
  {
    forall t | t in ls.generic && ls.generic[t] == Delayed(k)
      ensures false
    {
      assert ls.Contains(Delayed(k), t);
    }
  }

  lemma ReadySome(ls: Lists, tcbs: Tcbs, t: Task)
    requires PlacedIn(ls, tcbs, {}) && t in ls.generic && ls.generic[t].Ready?
    ensures SomeReady(ls)
  {
    assert ls.Contains(ls.generic[t], t);
    assert ls.Items(Ready(ls.generic[t].priority)) != [];
  }

  lemma AllPlaced(ls: Lists, tcbs: Tcbs, t: Task)
    requires PlacedIn(ls, tcbs, {}) && t in tcbs
    ensures t in ls.generic
  {
  }

  lemma StillNonePended(ls: Lists, t: Task)
    requires ls.Consistent()
    ensures ls.Items(PendingReady) == [] ==> ls.RemoveEvent(t).Items(PendingReady) == []
  {
    NonePended(ls);
    NonePended(ls.RemoveEvent(t));
  }

  lemma AppendLength(ls: Lists, id: ListId, t: Task)
    requires ls.Consistent() && t !in ls.generic && id.ForGeneric()
    ensures |ls.AppendGeneric(id, t).Items(id)| == |ls.Items(id)| + 1
  {
  }

  /** `prvInitialiseTCBVariables`. */
  function NewTcb(priority: nat): Tcb
    requires priority < MAX_PRIORITIES
  {
    Tcb(priority, priority, 0, MAX_PRIORITIES - priority, 0)
  }

  /** The running task after a task is created: the new one if there was none, or if the scheduler has
      not started and its priority is no lower. */
  function Starts(current: Task, tcbs: Tcbs, running: bool, t: Task, priority: nat): Task {
    if current == NO_TASK || (!running && current in tcbs && tcbs[current].priority <= priority) then t else current
  }

  /** The control blocks of tasks created one after the other, and the one chosen to start with. */
  function TcbsOf(ts: seq<Task>, priorities: seq<nat>): Tcbs
    requires |ts| == |priorities| && forall i :: 0 <= i < |priorities| ==> priorities[i] < MAX_PRIORITIES
  {
    var n := |ts|;
    if n == 0 then map[] else TcbsOf(ts[..n - 1], priorities[..n - 1])[ts[n - 1] := NewTcb(priorities[n - 1])]
  }

  function Chosen(ts: seq<Task>, priorities: seq<nat>): Task
    requires |ts| == |priorities| && forall i :: 0 <= i < |priorities| ==> priorities[i] < MAX_PRIORITIES
  {
    var n := |ts|;
    if n == 0 then NO_TASK
    else Starts(Chosen(ts[..n - 1], priorities[..n - 1]), TcbsOf(ts[..n - 1], priorities[..n - 1]), false, ts[n - 1],
        priorities[n - 1])
  }

  /** Of the tasks created before the scheduler starts, the one to start with is the newest of the highest priority. */
  lemma {:induction false} NewestOfHighest(ts: seq<Task>, priorities: seq<nat>) returns (i: nat)
    requires |ts| == |priorities| > 0 && (forall i :: 0 <= i < |priorities| ==> priorities[i] < MAX_PRIORITIES)
    requires Distinct(ts) && NO_TASK !in ts
    ensures i < |ts| && Chosen(ts, priorities) == ts[i]
    ensures ts[i] in TcbsOf(ts, priorities) && TcbsOf(ts, priorities)[ts[i]].priority == priorities[i]
    ensures forall j :: 0 <= j < |ts| ==> priorities[j] <= priorities[i] && (j > i ==> priorities[j] < priorities[i])
  {
    var n := |ts| - 1;
    var ts0, priorities0 := ts[..n], priorities[..n];
    i := n;
    if n > 0 {
      assert forall t :: t in ts0 ==> t in ts;
      var k := NewestOfHighest(ts0, priorities0);
      assert ts0[k] == ts[k] != ts[n] && ts[k] != NO_TASK;
      if priorities[k] > priorities[n] {
        i := k;
      }
      assert forall j :: 0 <= j < n ==> priorities0[j] == priorities[j];
    }
  }

  /** `prvInitialiseTaskLists`. */
  function Initialised(ls: Lists): Lists {
    Lists(map id | id in ls.at :: EmptyRing(), map[], map[])
  }

  /** With the first task the lists are initialised; there is nothing on them to lose. */
  lemma FirstTask(ls: Lists, tcbs: Tcbs, off: set<Task>)
    requires PlacedIn(ls, tcbs, off) && |tcbs| == 0
    ensures Initialised(ls) == ls
  {
    forall id
      ensures ls.Get(id) == EmptyRing()
    {
      SomeElement(ls.Items(id));
      assert forall x :: x in ls.Items(id) <==> ls.Contains(id, x);
      assert ls.Get(id).Valid();
    }
    assert forall id :: id in ls.at ==> ls.at[id] == ls.Get(id);
    assert Initialised(ls).at == ls.at;
    assert tcbs == map[];
  }

  /** The test by which `vTaskSuspend` finds that no task is left to run. */
  lemma AllSuspended(ls: Lists, tcbs: Tcbs)
    requires PlacedIn(ls, tcbs, {})
    ensures |ls.Items(Suspended)| == |tcbs| <==> forall t :: t in tcbs ==> t in ls.generic && ls.generic[t] == Suspended
  {
    LengthsCount(ls, [Suspended]);
    assert [Suspended][..0] == [];
    hide Lists.Consistent;
    var some := On(ls, [Suspended]);
    assert some <= tcbs.Keys;
    if |some| == |tcbs| {
      SubsetEqual(some, tcbs.Keys);
    }
    if forall t :: t in tcbs ==> t in ls.generic && ls.generic[t] == Suspended {
      assert some == tcbs.Keys;
    }
  }

  lemma SubsetEqual(a: set<Task>, b: set<Task>)
    requires a <= b && |a| == |b|
    ensures a == b
  {
    assert b == a + (b - a);
  }

  lemma NoTasks()
    ensures Good(Lists(map[], map[], map[]), map[], {}, 0, 0, 0, 0)
  {
  }

  /** The list found holds tasks of the highest ready priority. */
  lemma TopIsHighest(ls: Lists, tcbs: Tcbs, off: set<Task>, top: nat, t: Task)
    requires PlacedIn(ls, tcbs, off) && ToppedBy(ls, top) && t in ls.Items(Ready(top))
    ensures t in tcbs && t in ls.generic && ls.generic[t] == Ready(top) && tcbs[t].priority == top
    ensures HighestReady(ls, tcbs, top)
  {
    assert ls.Contains(Ready(top), t);
    forall x | x in ls.generic && ls.generic[x].Ready?
      ensures x in tcbs && tcbs[x].priority <= top
    {
      assert ls.Contains(ls.generic[x], x);
      assert x in ls.Items(ls.generic[x]);
    }
  }

  /** A ready task with a new control block, moved to the ready list of its priority. */
  lemma GoodMove(ls: Lists, tcbs: Tcbs, top: nat, current: nat, tick: int, next: Tick, t: Task, tcb: Tcb)
    requires Good(ls, tcbs, {}, top, current, tick, next) && t in tcbs && Ranked(tcb)
    requires t in ls.generic && ls.generic[t].Ready? && t !in ls.event
    ensures ls.Consistent() && t !in ls.RemoveGeneric(t).generic
    ensures var ls', tcbs' := ls.RemoveGeneric(t).AppendGeneric(Ready(tcb.priority), t), tcbs[t := tcb];
            && Good(ls', tcbs', {}, Max(top, tcb.priority), current, tick, next) && |tcbs'| == |tcbs|
            && IsRelisted(ls, ls', t, tcbs')
            && ls'.Get(Termination) == ls.Get(Termination) && ls'.Get(PendingReady) == ls.Get(PendingReady)
            && forall start :: Deadlines(ls', tcbs', current, start) == Deadlines(ls, tcbs, current, start)
  {
    hide Lists.Consistent, PlacedIn, ToppedBy, TimedBy;
    ConsistentOf(ls, tcbs, {});
    var off, ls1 := {t}, ls.RemoveGeneric(t);
    GoodRemoveGeneric(ls, tcbs, {}, top, current, tick, next, t);
    assert {} + {t} == off && off - {t} == {};
    GoodTcb(ls1, tcbs, off, top, current, tick, next, t, tcb);
    GoodReady(ls1, tcbs[t := tcb], off, top, current, tick, next, t);
    forall start
      ensures Deadlines(ls1.AppendGeneric(Ready(tcb.priority), t), tcbs[t := tcb], current, start)
                == Deadlines(ls, tcbs, current, start)
    {
      NotDelayed(ls, tcbs, current, start, t);
      NoDeadline(ls, tcbs, ls1.AppendGeneric(Ready(tcb.priority), t), tcbs[t := tcb], current, start, t);
    }
  }

  /** All that waking a task does. */
  lemma WokenFacts(ls: Lists, tcbs: Tcbs, top: nat, current: nat, tick: int, next: Tick, t: Task)
    requires Good(ls, tcbs, {}, top, current, tick, next) && t in ls.generic && t in tcbs
         && ls.generic[t] != Termination && ls.Consistent()
    ensures var ls' := ls.Wake(t, tcbs);
            && Good(ls', tcbs, {}, Max(top, tcbs[t].priority), current, tick, next)
            && ls'.Get(Termination) == ls.Get(Termination)
            && (ls.Items(PendingReady) == [] ==> ls'.Items(PendingReady) == [])
            && forall start :: Deadlines(ls', tcbs, current, start) == Deadlines(ls, tcbs, current, start) - {t}
  {
    hide Lists.Consistent, PlacedIn, ToppedBy, TimedBy, Lists.Wake;
    GoodWake(ls, tcbs, top, current, tick, next, t);
    OtherList(ls, t, tcbs, Termination);
    WakeOnePends(ls, t, tcbs);
    forall start
      ensures Deadlines(ls.Wake(t, tcbs), tcbs, current, start) == Deadlines(ls, tcbs, current, start) - {t}
    {
      NoDeadline(ls, tcbs, ls.Wake(t, tcbs), tcbs, current, start, t);
    }
  }

  /** Waking the first of the pended tasks, after some others. */
  lemma GoodDrain(before: Lists, readied: seq<Task>, ls: Lists, tcbs: Tcbs, top: nat, current: nat, tick: int,
                  next: Tick)
    requires Good(ls, tcbs, {}, top, current, tick, next) && ls.Items(PendingReady) != []
    requires before.Consistent() && forall t :: t in readied ==> t in before.generic && t in tcbs
    requires ls == before.WakeAll(readied, tcbs)
    ensures var t := ls.Items(PendingReady)[0];
            && ls.Consistent() && t in tcbs && t in ls.generic && t in before.generic && !ls.generic[t].Ready?
            && var ls' := ls.Wake(t, tcbs);
               && Good(ls', tcbs, {}, Max(top, tcbs[t].priority), current, tick, next)
               && ls'.Items(PendingReady) == ls.Items(PendingReady)[1..]
               && ls'.Items(Termination) == ls.Items(Termination)
               && (forall x :: x in readied + [t] ==> x in before.generic && x in tcbs)
               && ls' == before.WakeAll(readied + [t], tcbs)
  {
    hide Lists.Consistent, PlacedIn, ToppedBy, TimedBy, Lists.Wake, Lists.WakeAll;
    var t := ls.Items(PendingReady)[0];
    EventHead(ls, tcbs, PendingReady);
    GoodIndices(ls, tcbs, {}, top, current, tick, next);
    GoodWake(ls, tcbs, top, current, tick, next, t);
    WakeWaiter(ls, tcbs, PendingReady, t);
    OneMore(before, readied, t, tcbs);
  }

  /** A task that is new, and on no list yet. */
  lemma GoodNew(ls: Lists, tcbs: Tcbs, top: nat, current: nat, tick: int, next: Tick, t: Task, tcb: Tcb)
    requires Good(ls, tcbs, {}, top, current, tick, next) && t !in tcbs && t != NO_TASK && Ranked(tcb)
    ensures Good(ls, tcbs[t := tcb], {t}, top, current, tick, next) && t !in ls.generic && t !in ls.event
  {
    forall k
      ensures WakeTimes(ls.Items(Delayed(k)), tcbs[t := tcb]) == WakeTimes(ls.Items(Delayed(k)), tcbs)
    {
      assert t in ls.Items(Delayed(k)) <==> ls.Contains(Delayed(k), t);
    }
  }

  /** A new task, at the end of the ready list of its priority. */
  lemma GoodCreate(ls: Lists, tcbs: Tcbs, top: nat, current: nat, tick: int, next: Tick, t: Task, tcb: Tcb)
    requires Good(ls, tcbs, {}, top, current, tick, next) && t !in tcbs && t != NO_TASK && Ranked(tcb)
    ensures ls.Consistent() && t !in ls.generic
    ensures var ls', tcbs' := ls.AppendGeneric(Ready(tcb.priority), t), tcbs[t := tcb];
            && Good(ls', tcbs', {}, Max(top, tcb.priority), current, tick, next) && |tcbs'| == |tcbs| + 1
            && ls'.Get(Termination) == ls.Get(Termination) && ls'.Get(PendingReady) == ls.Get(PendingReady)
            && forall start :: Deadlines(ls', tcbs', current, start) == Deadlines(ls, tcbs, current, start)
  {
    hide Lists.Consistent, PlacedIn, ToppedBy, TimedBy;
    GoodNew(ls, tcbs, top, current, tick, next, t, tcb);
    ConsistentOf(ls, tcbs, {});
    GoodReady(ls, tcbs[t := tcb], {t}, top, current, tick, next, t);
    assert {t} - {t} == {};
    forall start
      ensures Deadlines(ls.AppendGeneric(Ready(tcb.priority), t), tcbs[t := tcb], current, start)
                == Deadlines(ls, tcbs, current, start)
    {
      NewDeadline(ls, tcbs, ls.AppendGeneric(Ready(tcb.priority), t), tcbs[t := tcb], current, start, t);
    }
  }

  /** A task that is on no list any more. */
  lemma GoodForget(ls: Lists, tcbs: Tcbs, top: nat, current: nat, tick: int, next: Tick, t: Task)
    requires Good(ls, tcbs, {t}, top, current, tick, next) && t !in ls.generic && t !in ls.event
    ensures Good(ls, tcbs - {t}, {}, top, current, tick, next)
  {
    forall k
      ensures WakeTimes(ls.Items(Delayed(k)), tcbs - {t}) == WakeTimes(ls.Items(Delayed(k)), tcbs)
    {
      assert t in ls.Items(Delayed(k)) <==> ls.Contains(Delayed(k), t);
    }
  }

  /** `prvResetNextTaskUnblockTime`. */
  lemma GoodNext(ls: Lists, tcbs: Tcbs, off: set<Task>, top: nat, current: nat, tick: int, next: Tick, next': Tick)
    requires Good(ls, tcbs, off, top, current, tick, next)
    requires forall t :: t in ls.generic && t in tcbs && ls.generic[t] == Delayed(current) ==> next' <= tcbs[t].wakeTime
    ensures Good(ls, tcbs, off, top, current, tick, next')
  {
  }

  /** Waking a blocked task, wherever it stands in its list. */
  lemma GoodWake(ls: Lists, tcbs: Tcbs, top: nat, current: nat, tick: int, next: Tick, t: Task)
    requires Good(ls, tcbs, {}, top, current, tick, next) && t in ls.generic && t in tcbs && ls.Consistent()
    ensures Good(ls.Wake(t, tcbs), tcbs, {}, Max(top, tcbs[t].priority), current, tick, next)
  {
    hide Good, Lists.Consistent;
    GoodRemoveGeneric(ls, tcbs, {}, top, current, tick, next, t);
    GoodRemoveEvent(ls.RemoveGeneric(t), tcbs, {} + {t}, top, current, tick, next, t);
    GoodReady(ls.RemoveGeneric(t).RemoveEvent(t), tcbs, {} + {t}, top, current, tick, next, t);
    assert {} + {t} - {t} == {};
  }

  // ----- The tick -----

  /** The tasks at the heads of event lists are blocked. */
  lemma EventHead(ls: Lists, tcbs: Tcbs, id: ListId)
    requires PlacedIn(ls, tcbs, {}) && ls.Items(id) != [] && !id.ForGeneric()
    ensures var t := ls.Items(id)[0]; t in tcbs && t in ls.event && ls.event[t] == id && Blocked(ls, t)
  {
    assert ls.Contains(id, ls.Items(id)[0]);
  }

  /** Waking the task at the head of an event list leaves the rest of that list in order. */
  lemma WakeWaiter(ls: Lists, tcbs: Tcbs, id: ListId, t: Task)
    requires PlacedIn(ls, tcbs, {}) && ls.Items(id) != [] && !id.ForGeneric() && t == ls.Items(id)[0]
    requires t in tcbs && t in ls.generic
    ensures ls.Wake(t, tcbs).Items(id) == ls.Items(id)[1..]
    ensures ls.Wake(t, tcbs).Get(Termination) == ls.Get(Termination)
  {
    EventHead(ls, tcbs, id);
    WakeHead(ls, id, t, tcbs);
    OtherList(ls, t, tcbs, Termination);
  }

  ghost predicate IsWake(ls: Lists, ls': Lists, t: Task, tcbs: Tcbs) {
    ls.Consistent() && t in ls.generic && t in tcbs && ls' == ls.Wake(t, tcbs)
  }

  /** The task's event item moved to the end of the pending ready list. */
  ghost predicate IsPend(ls: Lists, ls': Lists, t: Task) {
    ls.Consistent() && ls' == ls.RemoveEvent(t).AppendEvent(PendingReady, t)
  }

  /** So it comes last among those pended, which are readied in their order. */
  lemma PendedLast(ls: Lists, ls': Lists, t: Task)
    requires IsPend(ls, ls', t) && !PendedIn(ls, t) && ls.Get(PendingReady).at == 0
    ensures ls'.Items(PendingReady) == ls.Items(PendingReady) + [t] && ls'.Get(PendingReady).at == 0
  {
  }

  lemma PendedAre(ls: Lists)
    requires ls.Consistent()
    ensures forall t :: t in ls.Items(PendingReady) <==> PendedIn(ls, t)
  {
    forall t
      ensures t in ls.Items(PendingReady) <==> PendedIn(ls, t)
    {
      assert t in ls.Items(PendingReady) <==> ls.Contains(PendingReady, t);
    }
  }

  /** Waking one task pends none. */
  lemma WakeOnePends(ls: Lists, t: Task, tcbs: Tcbs)
    requires ls.Consistent() && t in ls.generic && t in tcbs
    ensures ls.Items(PendingReady) == [] ==> ls.Wake(t, tcbs).Items(PendingReady) == []
  {
    if ls.Items(PendingReady) == [] {
      WakePendsNone(ls, [t], tcbs);
      assert ls.WakeAll([t], tcbs) == ls.Wake(t, tcbs) by {
        assert [t][..0] == [];
      }
    }
  }

  /** Taking the first waiter off an event list leaves the rest in order. */
  lemma PendWaiter(ls: Lists, id: ListId)
    requires ls.Consistent() && ls.Items(id) != [] && !id.ForGeneric()
    ensures ls.RemoveEvent(ls.Items(id)[0]).Items(id) == ls.Items(id)[1..]
  {
    assert ls.Contains(id, ls.Items(id)[0]);
    assert IndexOf(ls.Items(id), ls.Items(id)[0]) == 0;
  }

  lemma WaiterPlaced(ls: Lists, tcbs: Tcbs, t: Task)
    requires PlacedIn(ls, tcbs, {}) && t in ls.event
    ensures t in tcbs && Blocked(ls, t)
  {
  }

  lemma NonePended(ls: Lists)
    requires ls.Consistent()
    ensures ls.Items(PendingReady) == [] <==> forall t :: t in ls.event ==> ls.event[t] != PendingReady
  {
    if ls.Items(PendingReady) != [] {
      assert ls.Contains(PendingReady, ls.Items(PendingReady)[0]);
    }
    forall t | t in ls.event && ls.event[t] == PendingReady
      ensures ls.Items(PendingReady) != []
    {
      assert ls.Contains(PendingReady, t);
    }
  }

  lemma HeadPlaced(ls: Lists, tcbs: Tcbs, k: nat)
    requires PlacedIn(ls, tcbs, {}) && ls.Items(Delayed(k)) != []
    ensures var t := ls.Items(Delayed(k))[0]; t in tcbs && t in ls.generic && ls.generic[t] == Delayed(k)
  {
    assert ls.Contains(Delayed(k), ls.Items(Delayed(k))[0]);
  }

  lemma OtherList(ls: Lists, t: Task, tcbs: Tcbs, id: ListId)
    requires PlacedIn(ls, tcbs, {}) && t in ls.generic && ls.generic[t] != id && id.ForGeneric() && !id.Ready?
    ensures ls.Wake(t, tcbs).Get(id) == ls.Get(id)
  {
    assert !ls.Contains(id, t);
    WakeElsewhere(ls, id, t, tcbs);
  }

  /** Waking the task at the head of a delayed list leaves the rest of that list in order. */
  lemma WakeFirst(ls: Lists, tcbs: Tcbs, t: Task, k: nat)
    requires PlacedIn(ls, tcbs, {}) && ls.Items(Delayed(k)) != [] && ls.Items(Delayed(k))[0] == t
    requires t in tcbs && t in ls.generic
    ensures ls.Wake(t, tcbs).Items(Delayed(k)) == ls.Items(Delayed(k))[1..]
    ensures ls.Wake(t, tcbs).Get(Termination) == ls.Get(Termination)
  {
    HeadPlaced(ls, tcbs, k);
    WakeHead(ls, Delayed(k), t, tcbs);
    OtherList(ls, t, tcbs, Termination);
  }

  /** The tasks found due, one after the other from the head, are all there are. */
  lemma DueExactly(ls: Lists, tcbs: Tcbs, k: nat, tick: Tick, i: nat)
    requires PlacedIn(ls, tcbs, {}) && Sorted(WakeTimes(ls.Items(Delayed(k)), tcbs)) && i <= |ls.Items(Delayed(k))|
    requires forall j ::
              0 <= j < i ==> ls.Items(Delayed(k))[j] in tcbs && tcbs[ls.Items(Delayed(k))[j]].wakeTime == tick
    requires i < |ls.Items(Delayed(k))| ==> WakeTimes(ls.Items(Delayed(k)), tcbs)[i] > tick
    ensures forall t ::
              t in ls.Items(Delayed(k))[..i] <==> t in tcbs && ls.Contains(Delayed(k), t) && tcbs[t].wakeTime == tick
  {
    var items := ls.Items(Delayed(k));
    forall t
      ensures t in items[..i] <==> t in tcbs && ls.Contains(Delayed(k), t) && tcbs[t].wakeTime == tick
    {
      assert t in items <==> ls.Contains(Delayed(k), t);
      if t in items {
        var j :| 0 <= j < |items| && items[j] == t;
        assert t in tcbs && WakeTimes(items, tcbs)[j] == tcbs[t].wakeTime;
        assert j < i ==> items[..i][j] == t;
      }
    }
  }

  lemma TimedAfter(ls: Lists, tcbs: Tcbs, current: nat, tick: Tick, last: Tick, next: Tick)
    requires PlacedIn(ls, tcbs, {}) && TimedBy(ls, tcbs, current, tick - 1, last)
    requires var items := ls.Items(Delayed(current));
             items != [] ==> items[0] in tcbs && tick < tcbs[items[0]].wakeTime && next == tcbs[items[0]].wakeTime
    ensures TimedBy(ls, tcbs, current, tick, next)
  {
    HeadIsFirst(ls, tcbs, current);
  }

  lemma DueStart(ls: Lists, tcbs: Tcbs, top: nat, current: nat, tick: int, next: Tick)
    requires Good(ls, tcbs, {}, top, current, tick, next)
    ensures PlacedIn(ls, tcbs, {}) && ls.Consistent() && Sorted(WakeTimes(ls.Items(Delayed(current)), tcbs))
    ensures ls.WakeAll([], tcbs) == ls && Turns.Joins(ls, ls, [], tcbs)
  {
    Turns.JoinsNone(ls, ls, tcbs);
  }

  /** Waking the first of the tasks that are due, after some others. */
  lemma GoodDue(before: Lists, woken: seq<Task>, ls: Lists, tcbs: Tcbs, top: nat, current: nat, tick: Tick, next: Tick)
    requires Good(ls, tcbs, {}, top, current, tick - 1, next) && ls.Items(Delayed(current)) != []
    requires before.Consistent() && forall t :: t in woken ==> t in before.generic && t in tcbs
    requires ls == before.WakeAll(woken, tcbs) && Turns.Joins(before, ls, woken, tcbs)
    ensures var t := ls.Items(Delayed(current))[0];
            && ls.Consistent() && t in tcbs && t in ls.generic && t in before.generic
            && (tcbs[t].wakeTime <= tick ==> tcbs[t].wakeTime == tick)
            && WakeTimes(ls.Items(Delayed(current)), tcbs)[0] == tcbs[t].wakeTime
            && var ls' := ls.Wake(t, tcbs);
               && Good(ls', tcbs, {}, Max(top, tcbs[t].priority), current, tick - 1, next)
               && ls'.Items(Delayed(current)) == ls.Items(Delayed(current))[1..]
               && ls'.Get(Termination) == ls.Get(Termination)
               && (forall x :: x in woken + [t] ==> x in before.generic && x in tcbs)
               && ls' == before.WakeAll(woken + [t], tcbs) && Turns.Joins(before, ls', woken + [t], tcbs)
  {
    hide Lists.Consistent, PlacedIn, ToppedBy, TimedBy, Lists.Wake, Lists.WakeAll, Turns.Joins;
    var t := ls.Items(Delayed(current))[0];
    HeadPlaced(ls, tcbs, current);
    GoodIndices(ls, tcbs, {}, top, current, tick - 1, next);
    if tcbs[t].wakeTime <= tick {
      DueNow(ls, tcbs, current, tick, next, t);
    }
    GoodWake(ls, tcbs, top, current, tick - 1, next, t);
    WakeFirst(ls, tcbs, t, current);
    OneMore(before, woken, t, tcbs);
    WokenToo(before, woken, ls, t, tcbs);
  }

  lemma DueStop(ls: Lists, tcbs: Tcbs, top: nat, current: nat, tick: Tick, last: Tick, next: Tick)
    requires Good(ls, tcbs, {}, top, current, tick - 1, last)
    requires var items := ls.Items(Delayed(current));
             items != [] ==> items[0] in tcbs && tick < tcbs[items[0]].wakeTime && next == tcbs[items[0]].wakeTime
    ensures Good(ls, tcbs, {}, top, current, tick, next)
  {
    hide PlacedIn, ToppedBy, TimedBy;
    TimedAfter(ls, tcbs, current, tick, last, next);
  }

  /** One tick of the clock: within an epoch, or into the next one with the delayed lists swapped. */
  ghost predicate Ticked(ls: Lists, current: nat, current': nat, start: nat, start': nat, tick: Tick, tick': Tick) {
    || (tick' == tick + 1 && current' == current < 2 && start' == start)
    || (tick == M - 1 && tick' == 0 && current' == 1 - current && current < 2 && start' == start + M
       && ls.Items(Delayed(current)) == [])
  }

  ghost function DeadlineIn(ls: Lists, tcbs: Tcbs, current: nat, start: nat, t: Task): nat
    requires t in tcbs && t in ls.generic
  {
    start + (if ls.generic[t] == Delayed(current) then 0 else M) + tcbs[t].wakeTime
  }

  /** The shortcut on the next unblock time never skips a task that is due. */
  lemma NoneDue(ls: Lists, tcbs: Tcbs, current: nat, tick: Tick, next: Tick)
    requires PlacedIn(ls, tcbs, {}) && TimedBy(ls, tcbs, current, tick - 1, next)
    ensures tick < next ==> TimedBy(ls, tcbs, current, tick, next)
    ensures tick < next ==> forall t :: t in tcbs && ls.Contains(Delayed(current), t) ==> tcbs[t].wakeTime != tick
  {
  }

  /** When the counter is about to wrap, no task is left on the current delayed list. */
  lemma NoneLeft(ls: Lists, tcbs: Tcbs, current: nat, tick: Tick, next: Tick)
    requires PlacedIn(ls, tcbs, {}) && TimedBy(ls, tcbs, current, tick, next) && tick == M - 1
    ensures ls.Items(Delayed(current)) == []
  {
    if ls.Items(Delayed(current)) != [] {
      HeadPlaced(ls, tcbs, current);
    }
  }

  /** The deadlines of all delayed tasks, read off the list each one is on. */
  ghost function Deadlines(ls: Lists, tcbs: Tcbs, current: nat, start: nat): map<Task, nat> {
    map t | t in tcbs && t in ls.generic && ls.generic[t].Delayed? :: DeadlineIn(ls, tcbs, current, start, t)
  }

  /** The deadlines left when some tasks have been woken. */
  ghost function Left(due: map<Task, nat>, woken: seq<Task>): map<Task, nat> {
    map t | t in due && t !in woken :: due[t]
  }

  lemma LeftTwice(due: map<Task, nat>, a: seq<Task>, b: seq<Task>)
    ensures Left(Left(due, a), b) == Left(due, a + b)
  {
  }

  /** The tasks woken by a tick are those whose deadline it is, and no other deadline moves: the two
      lists and the wrapping counter keep the time of the unbounded clock. */
  lemma TickDeadlines(ls: Lists, ls': Lists, tcbs: Tcbs, woken: seq<Task>, current: nat, current': nat,
                      start: nat, start': nat, tick: Tick, tick': Tick, next: Tick)
    requires PlacedIn(ls, tcbs, {}) && Ticked(ls, current, current', start, start', tick, tick')
    requires forall t :: t in woken <==> t in tcbs && ls.Contains(Delayed(current'), t) && tcbs[t].wakeTime == tick'
    requires forall t :: t in woken ==> t in ls.generic
    requires ls' == ls.WakeAll(woken, tcbs) && TimedBy(ls', tcbs, current', tick', next)
    ensures var due := Deadlines(ls, tcbs, current, start);
            && (forall t :: t in woken <==> t in due && due[t] == start' + tick')
            && Deadlines(ls', tcbs, current', start') == Left(due, woken)
  {
    hide Lists.WakeAll, TimedBy, Lists.Consistent;
    SameDeadlines(ls, tcbs, current, current', start, start', tick, tick');
    DeadlineNow(ls, tcbs, current', start', tick');
    ConsistentOf(ls, tcbs, {});
    WakeDeadlines(ls, woken, tcbs, current', start');
    hide PlacedIn, Ticked, DeadlineIn;
    assert Deadlines(ls, tcbs, current, start) == Deadlines(ls, tcbs, current', start');
  }

  /** The deadlines of the tasks that waking others leaves delayed stay what they were. */
  lemma WakeDeadlines(ls: Lists, woken: seq<Task>, tcbs: Tcbs, current: nat, start: nat)
    requires ls.Consistent() && forall t :: t in woken ==> t in ls.generic && t in tcbs
    ensures Deadlines(ls.WakeAll(woken, tcbs), tcbs, current, start) == Left(Deadlines(ls, tcbs, current, start), woken)
  {
    hide Lists.WakeAll, Lists.Consistent, DeadlineIn;
    WakeAllPlaces(ls, woken, tcbs);
    var ls' := ls.WakeAll(woken, tcbs);
    var due, due' := Deadlines(ls, tcbs, current, start), Deadlines(ls', tcbs, current, start);
    forall t | t in due && t !in woken
      ensures t in due' && due'[t] == due[t]
    {
      SamePlace(ls, ls', tcbs, current, start, t);
    }
    forall t | t in due'
      ensures t in due && t !in woken
    {
    }
  }

  lemma SamePlace(ls: Lists, ls': Lists, tcbs: Tcbs, current: nat, start: nat, t: Task)
    requires t in tcbs && t in ls.generic && t in ls'.generic && ls'.generic[t] == ls.generic[t]
    ensures DeadlineIn(ls', tcbs, current, start, t) == DeadlineIn(ls, tcbs, current, start, t)
  {
  }

  lemma DeadlineNow(ls: Lists, tcbs: Tcbs, current: nat, start: nat, tick: Tick)
    requires PlacedIn(ls, tcbs, {})
    ensures forall t :: t in tcbs && ls.Contains(Delayed(current), t) && tcbs[t].wakeTime == tick <==>
              t in Deadlines(ls, tcbs, current, start) && Deadlines(ls, tcbs, current, start)[t] == start + tick
  {
  }

  lemma SameDeadlines(ls: Lists, tcbs: Tcbs, current: nat, current': nat, start: nat, start': nat, tick: Tick,
                      tick': Tick)
    requires PlacedIn(ls, tcbs, {}) && Ticked(ls, current, current', start, start', tick, tick')
    ensures forall t :: t in tcbs && t in ls.generic && ls.generic[t].Delayed? ==>
              DeadlineIn(ls, tcbs, current, start, t) == DeadlineIn(ls, tcbs, current', start', t)
  {
    forall t | t in tcbs && t in ls.generic && ls.generic[t].Delayed?
      ensures DeadlineIn(ls, tcbs, current, start, t) == DeadlineIn(ls, tcbs, current', start', t)
    {
      assert t in ls.Items(Delayed(current)) <==> ls.Contains(Delayed(current), t);
    }
  }

  /** The tasks readied so far are those that were pended and those whose time has come by `now`. */
  ghost predicate CaughtUp(before: Lists, due: map<Task, nat>, readied: seq<Task>, now: nat) {
    forall t :: t in readied <==> PendedIn(before, t) || (t in due && due[t] <= now)
  }

  ghost predicate PendedIn(ls: Lists, t: Task) {
    t in ls.event && ls.event[t] == PendingReady
  }

  /** Between ticks every deadline lies ahead. */
  lemma DeadlinesAhead(ls: Lists, tcbs: Tcbs, current: nat, start: nat, tick: Tick, next: Tick)
    requires TimedBy(ls, tcbs, current, tick, next)
    ensures forall t ::
              t in Deadlines(ls, tcbs, current, start) ==> Deadlines(ls, tcbs, current, start)[t] > start + tick
  {
  }

  /** Waking tasks pends no other. */
  lemma WakePendsNone(ls: Lists, woken: seq<Task>, tcbs: Tcbs)
    requires ls.Consistent() && ls.Items(PendingReady) == [] && forall t :: t in woken ==> t in ls.generic && t in tcbs
    ensures ls.WakeAll(woken, tcbs).Items(PendingReady) == []
  {
    hide Lists.WakeAll;
    NonePended(ls);
    WakeAllPlaces(ls, woken, tcbs);
    NonePended(ls.WakeAll(woken, tcbs));
  }

  lemma CatchUpStart(before: Lists, due: map<Task, nat>, pended: seq<Task>, now: nat)
    requires forall t :: t in pended <==> PendedIn(before, t)
    requires forall t :: t in due ==> due[t] > now
    ensures CaughtUp(before, due, pended, now)
  {
  }

  lemma CatchUpStep(before: Lists, due: map<Task, nat>, readied: seq<Task>, now: nat, woken: seq<Task>)
    requires CaughtUp(before, due, readied, now)
    requires forall t :: t in woken <==> t in Left(due, readied) && Left(due, readied)[t] == now + 1
    ensures CaughtUp(before, due, readied + woken, now + 1)
  {
  }

  lemma NoneWoken(ls: Lists, tcbs: Tcbs)
    requires PlacedIn(ls, tcbs, {})
    ensures ls.WakeAll([], tcbs) == ls
  {
  }

  lemma DueSorted(ls: Lists, tcbs: Tcbs, k: nat, tick: int, next: Tick)
    requires TimedBy(ls, tcbs, k, tick, next)
    ensures Sorted(WakeTimes(ls.Items(Delayed(k)), tcbs))
  {
  }

  lemma DueNow(ls: Lists, tcbs: Tcbs, current: nat, tick: Tick, next: Tick, t: Task)
    requires TimedBy(ls, tcbs, current, tick - 1, next) && t in tcbs && t in ls.generic
         && ls.generic[t] == Delayed(current)
    requires tcbs[t].wakeTime <= tick
    ensures tcbs[t].wakeTime == tick
  {
  }

  lemma OneMore(ls: Lists, woken: seq<Task>, t: Task, tcbs: Tcbs)
    requires ls.Consistent() && forall x :: x in woken + [t] ==> x in ls.generic && x in tcbs
    ensures ls.WakeAll(woken + [t], tcbs) == ls.WakeAll(woken, tcbs).Wake(t, tcbs)
  {
    assert (woken + [t])[..|woken|] == woken;
  }

  /** The task at the head of a delayed list is the one to wake first. */
  lemma HeadIsFirst(ls: Lists, tcbs: Tcbs, k: nat)
    requires PlacedIn(ls, tcbs, {}) && Sorted(WakeTimes(ls.Items(Delayed(k)), tcbs))
    ensures forall t :: t in ls.generic && t in tcbs && ls.generic[t] == Delayed(k) ==>
              ls.Items(Delayed(k)) != [] && ls.Items(Delayed(k))[0] in tcbs
              && tcbs[ls.Items(Delayed(k))[0]].wakeTime <= tcbs[t].wakeTime
  {
    var items := ls.Items(Delayed(k));
    forall t | t in ls.generic && t in tcbs && ls.generic[t] == Delayed(k)
      ensures items != [] && items[0] in tcbs && tcbs[items[0]].wakeTime <= tcbs[t].wakeTime
    {
      assert ls.Contains(Delayed(k), t);
      var i :| 0 <= i < |items| && items[i] == t;
      assert items[0] in items && ls.Contains(Delayed(k), items[0]);
      assert WakeTimes(items, tcbs)[0] <= WakeTimes(items, tcbs)[i];
    }
  }

  // ----- Deadlines and the other operations -----

  /** What happens to one task leaves the deadlines of the others alone. */
  lemma OtherDeadlines(ls: Lists, tcbs: Tcbs, ls': Lists, tcbs': Tcbs, current: nat, start: nat, t: Task)
    requires forall x :: x != t ==> (x in tcbs <==> x in tcbs') && (x in ls.generic <==> x in ls'.generic)
    requires forall x :: x != t && x in tcbs ==> tcbs'[x].wakeTime == tcbs[x].wakeTime
    requires forall x :: x != t && x in ls.generic ==> ls'.generic[x] == ls.generic[x]
    ensures Deadlines(ls', tcbs', current, start) - {t} == Deadlines(ls, tcbs, current, start) - {t}
  {
  }

  /** Event lists have no part in deadlines. */
  lemma EventsAside(ls: Lists, tcbs: Tcbs, ls': Lists, tcbs': Tcbs, current: nat, start: nat)
    requires ls'.generic == ls.generic && tcbs'.Keys == tcbs.Keys
         && forall t :: t in tcbs ==> tcbs'[t].wakeTime == tcbs[t].wakeTime
    ensures Deadlines(ls', tcbs', current, start) == Deadlines(ls, tcbs, current, start)
  {
  }

  lemma NewDeadline(ls: Lists, tcbs: Tcbs, ls': Lists, tcbs': Tcbs, current: nat, start: nat, t: Task)
    requires t !in tcbs && t in tcbs' && tcbs' == tcbs[t := tcbs'[t]] && t in ls'.generic && !ls'.generic[t].Delayed?
    requires ls'.generic == ls.generic[t := ls'.generic[t]]
    ensures Deadlines(ls', tcbs', current, start) == Deadlines(ls, tcbs, current, start)
  {
  }

  lemma NotDelayed(ls: Lists, tcbs: Tcbs, current: nat, start: nat, t: Task)
    requires t in ls.generic && !ls.generic[t].Delayed?
    ensures Deadlines(ls, tcbs, current, start) - {t} == Deadlines(ls, tcbs, current, start)
  {
  }

  /** Neither before nor after it joins the suspended list has a task a deadline. */
  lemma SuspendedAside(ls: Lists, ls': Lists, tcbs: Tcbs, current: nat, start: nat, t: Task)
    requires t !in ls.generic && ls'.generic == ls.generic[t := Suspended]
    ensures Deadlines(ls', tcbs, current, start) == Deadlines(ls, tcbs, current, start)
  {
  }

  /** A task off the delayed lists has no deadline. */
  lemma NoDeadline(ls: Lists, tcbs: Tcbs, ls': Lists, tcbs': Tcbs, current: nat, start: nat, t: Task)
    requires forall x :: x != t ==> (x in tcbs <==> x in tcbs') && (x in ls.generic <==> x in ls'.generic)
    requires forall x :: x != t && x in tcbs ==> tcbs'[x].wakeTime == tcbs[x].wakeTime
    requires forall x :: x != t && x in ls.generic ==> ls'.generic[x] == ls.generic[x]
    requires t in ls'.generic ==> !ls'.generic[t].Delayed?
    ensures Deadlines(ls', tcbs', current, start) == Deadlines(ls, tcbs, current, start) - {t}
  {
  }

  /** A task put on the delayed list that `prvAddCurrentTaskToDelayedList` chooses is due when the
      counter next shows its wake time. */
  lemma DelayDeadline(ls: Lists, tcbs: Tcbs, ls': Lists, tcbs': Tcbs, current: nat, start: nat, tick: Tick, t: Task,
                      wake: Tick)
    requires t in tcbs && t !in ls.generic && current < 2 && wake != tick
    requires tcbs' == tcbs[t := tcbs[t].(wakeTime := wake)]
    requires ls'.generic == ls.generic[t := Delayed(if wake < tick then 1 - current else current)]
    ensures Deadlines(ls', tcbs', current, start)
              == Deadlines(ls, tcbs, current, start)[t := start + tick + Minus(wake, tick)]
  {
    var due, due' := Deadlines(ls, tcbs, current, start), Deadlines(ls', tcbs', current, start);
    OtherDeadlines(ls, tcbs, ls', tcbs', current, start, t);
    assert t in due' && due'[t] == start + tick + Minus(wake, tick) && t !in due;
    assert due - {t} == due && due' == (due' - {t})[t := due'[t]];
  }

  /** The task's generic item has joined a delayed list in the order of wake times, after those equal to its own. */
  ghost predicate IsDelayed(ls: Lists, ls': Lists, tcbs: Tcbs, t: Task, which: nat, wake: Tick) {
    var p := Place(WakeTimes(ls.Items(Delayed(which)), tcbs), wake);
    ls.Consistent() && t !in ls.generic && p <= |ls.Items(Delayed(which))|
        && ls' == ls.InsertGeneric(Delayed(which), p, t)
  }

  /** So it stands behind everyone due no later than itself, and in front of the next, due later. */
  lemma DelayedInOrder(ls: Lists, ls': Lists, tcbs: Tcbs, t: Task, which: nat, wake: Tick) returns (p: nat)
    requires IsDelayed(ls, ls', tcbs, t, which, wake) && forall x :: x in ls.Items(Delayed(which)) ==> x in tcbs
    ensures var items := ls.Items(Delayed(which));
            && p <= |items| && ls'.Items(Delayed(which)) == items[..p] + [t] + items[p..]
            && (forall i :: 0 <= i < p ==> tcbs[items[i]].wakeTime <= wake)
            && (p < |items| ==> wake < tcbs[items[p]].wakeTime)
  {
    var items := ls.Items(Delayed(which));
    var v := WakeTimes(items, tcbs);
    p := Place(v, wake);
    assert forall i :: 0 <= i < |items| ==> items[i] in tcbs && v[i] == tcbs[items[i]].wakeTime;
  }

  lemma DelayedFacts(ls: Lists, ls': Lists, tcbs: Tcbs, t: Task, which: nat, wake: Tick)
    requires IsDelayed(ls, ls', tcbs, t, which, wake)
    ensures ls'.generic == ls.generic[t := Delayed(which)] && ls'.event == ls.event
    ensures forall id :: id != Delayed(which) ==> ls'.Get(id) == ls.Get(id)
  {
  }

  /** A ready task has left its list for the end of the suspended list or for its place on a delayed one. No other list
      for generic items has changed, nor the place of its index. */
  ghost predicate IsRested(ls: Lists, ls': Lists, tcbs: Tcbs, t: Task, id: ListId, wake: Tick) {
    && t in ls.generic && ls.Get(ls.generic[t]).Valid() && t in ls.Items(ls.generic[t])
    && ls.Get(id).at <= |ls.Items(id)|
    && ls'.generic == ls.generic[t := id] && (id.Suspended? || id.Delayed?)
    && ls'.Get(ls.generic[t]) == RemoveItem(ls.Get(ls.generic[t]), t)
    && ls'.Get(id) == (if id.Suspended? then InsertEnd(ls.Get(id), t)
                       else InsertAt(ls.Get(id), Place(WakeTimes(ls.Items(id), tcbs), wake), t))
    && forall other: ListId ::
         other.ForGeneric() && other != ls.generic[t] && other != id ==> ls'.Get(other) == ls.Get(other)
  }

  lemma RestedSuspended(ls: Lists, ls': Lists, tcbs: Tcbs, t: Task, wake: Tick)
    requires ls.Consistent() && t in ls.generic && ls.generic[t].Ready?
    requires ls' == ls.RemoveGeneric(t).AppendGeneric(Suspended, t)
    ensures IsRested(ls, ls', tcbs, t, Suspended, wake) && ls'.event == ls.event
    ensures forall id: ListId :: !id.ForGeneric() ==> ls'.Get(id) == ls.Get(id)
  {
    assert ls.Contains(ls.generic[t], t);
    assert ls.Get(Suspended).Valid();
  }

  lemma RestedDelayed(ls: Lists, ls': Lists, tcbs: Tcbs, t: Task, which: nat, wake: Tick)
    requires ls.Consistent() && t in ls.generic && ls.generic[t].Ready?
    requires IsDelayed(ls.RemoveGeneric(t), ls', tcbs, t, which, wake)
    ensures IsRested(ls, ls', tcbs, t, Delayed(which), wake) && ls'.event == ls.event
    ensures forall id: ListId :: !id.ForGeneric() ==> ls'.Get(id) == ls.Get(id)
  {
    assert ls.Contains(ls.generic[t], t);
    assert ls.Get(Delayed(which)).Valid();
    assert ls.RemoveGeneric(t).Get(Delayed(which)) == ls.Get(Delayed(which));
  }

  /** All that blocking until a wake time does. */
  lemma GoodBlock(ls: Lists, tcbs: Tcbs, top: nat, current: nat, tick: Tick, next: Tick, t: Task, wake: Tick,
                  ls': Lists, which: nat)
    requires Good(ls, tcbs, {t}, top, current, tick, next) && t in tcbs && t !in ls.generic && wake != tick
    requires which == (if wake < tick then 1 - current else current)
                && IsDelayed(ls, ls', tcbs[t := tcbs[t].(wakeTime := wake)], t, which, wake)
    ensures var tcbs', next' := tcbs[t := tcbs[t].(wakeTime := wake)], if tick <= wake < next then wake else next;
            && Good(ls', tcbs', {}, top, current, tick, next') && |tcbs'| == |tcbs|
            && forall start: nat ::
                 Deadlines(ls', tcbs', current, start)
                     == Deadlines(ls, tcbs, current, start)[t := start + tick + Minus(wake, tick)]
  {
    hide PlacedIn, ToppedBy, TimedBy, Lists.Consistent, Deadlines, Lists.InsertGeneric;
    var tcbs', next' := tcbs[t := tcbs[t].(wakeTime := wake)], if tick <= wake < next then wake else next;
    GoodIndices(ls, tcbs, {t}, top, current, tick, next);
    GoodTcb(ls, tcbs, {t}, top, current, tick, next, t, tcbs'[t]);
    GoodDelay(ls, tcbs', {t}, top, current, tick, next, next', t, which);
    assert {t} - {t} == {};
    DelayedFacts(ls, ls', tcbs', t, which, wake);
    hide Good, IsDelayed;
    forall start: nat
      ensures Deadlines(ls', tcbs', current, start)
                == Deadlines(ls, tcbs, current, start)[t := start + tick + Minus(wake, tick)]
    {
      DelayDeadline(ls, tcbs, ls', tcbs', current, start, tick, t, wake);
    }
  }

  // ----- Turns -----

  /** A waiter that is woken joins the ready tasks. */
  lemma WakeTurns(ls: Lists, ls': Lists, t: Task, tcbs: Tcbs)
    requires IsWake(ls, ls', t, tcbs) && !ls.generic[t].Ready?
    ensures Turns.Joins(ls, ls', [t], tcbs)
  {
    Turns.WakeJoins(ls, t, tcbs);
  }

  /** So does one woken after others. */
  lemma WokenToo(before: Lists, woken: seq<Task>, ls: Lists, t: Task, tcbs: Tcbs)
    requires Turns.Joins(before, ls, woken, tcbs) && ls.Consistent() && t in ls.generic && t in tcbs
    requires !ls.generic[t].Ready?
    ensures Turns.Joins(before, ls.Wake(t, tcbs), woken + [t], tcbs)
  {
    hide Turns.Joins, Lists.Consistent, Lists.Wake;
    Turns.WakeJoins(ls, t, tcbs);
    Turns.JoinsMore(before, ls, ls.Wake(t, tcbs), woken, [t], tcbs);
  }

  /** A task that blocks leaves the others of its priority in their order. */
  lemma RestedTurns(ls: Lists, ls': Lists, tcbs: Tcbs, t: Task, id: ListId, wake: Tick)
    requires IsRested(ls, ls', tcbs, t, id, wake) && ls.generic[t].Ready?
    ensures Turns.Leaves(ls, ls', t, ls.generic[t].priority)
  {
    Turns.RemoveItemParts(ls.Get(ls.generic[t]), t);
    forall p | p != ls.generic[t].priority
      ensures Turns.TurnsAt(ls', p) == Turns.TurnsAt(ls, p)
    {
      assert ls'.Get(Ready(p)) == ls.Get(Ready(p));
    }
  }

  /** So does one that is suspended or deleted, if it was ready. */
  lemma MovedTurns(ls: Lists, ls': Lists, t: Task, id: ListId)
    requires IsMoved(ls, ls', t, id) && !id.Ready?
    ensures Turns.Quits(ls, ls', t)
  {
    var ls1 := ls.RemoveGeneric(t);
    var ls2 := ls1.RemoveEvent(t);
    Turns.RemoveAside(ls, t);
    Turns.RemoveAside(ls1, t);
    assert Turns.SameTurns(ls2, ls');
    if ls.generic[t].Ready? {
      Turns.RemoveLeaves(ls, t);
    }
  }

  /** A new task joins. */
  lemma NewTurns(ls: Lists, ls': Lists, t: Task, tcbs: Tcbs)
    requires t in tcbs && IsNew(ls, ls', tcbs[t].priority, t)
    ensures Turns.Joins(ls, ls', [t], tcbs)
  {
    Turns.AppendJoins(ls, t, tcbs);
  }

  /** A ready task whose priority changes leaves and joins. */
  lemma RelistedTurns(ls: Lists, ls': Lists, t: Task, tcbs: Tcbs)
    requires IsRelisted(ls, ls', t, tcbs)
    ensures Turns.Requeues(ls, ls', t, tcbs)
  {
    if ls.generic[t].Ready? {
      var mid := ls.RemoveGeneric(t);
      Turns.RemoveLeaves(ls, t);
      Turns.AppendJoins(mid, t, tcbs);
    }
  }

  /** The task chosen is the first in turn of its priority. */
  lemma ChosenTurns(ls: Lists, ls': Lists, p: nat, t: Task)
    requires IsTurn(ls, ls', p, t)
    ensures Turns.Takes(ls, ls', t, p)
  {
    Turns.WalkReadyTakes(ls, p);
  }

  // ----- Conservation -----

  /** Every task is on exactly one of the lists a generic item may be on, on at most one event list, and
      the lengths of the former add up to the number of tasks. */
  lemma Conservation(ls: Lists, tcbs: Tcbs)
    requires PlacedIn(ls, tcbs, {})
    ensures Lengths(ls, GenericLists(MAX_PRIORITIES)) == |tcbs|
    ensures forall t :: t in tcbs ==> exists id ::
              id in GenericLists(MAX_PRIORITIES) && t in ls.Items(id)
                  && forall other: ListId :: other.ForGeneric() && t in ls.Items(other) ==> other == id
    ensures forall t, id: ListId, id': ListId ::
              !id.ForGeneric() && !id'.ForGeneric() && t in ls.Items(id) && t in ls.Items(id') ==> id == id'
  {
    var ids := GenericLists(MAX_PRIORITIES);
    GenericListsAre(MAX_PRIORITIES);
    ListedPlaces(ls, tcbs);
    LengthsCount(ls, ids);
    hide PlacedIn, Lists.Consistent;
    assert On(ls, ids) == tcbs.Keys;
    forall t | t in tcbs
      ensures exists id ::
                id in ids && t in ls.Items(id)
                    && forall other: ListId :: other.ForGeneric() && t in ls.Items(other) ==> other == id
    {
      assert ls.generic[t] in ids && t in ls.Items(ls.generic[t]);
    }
  }

  lemma ListedPlaces(ls: Lists, tcbs: Tcbs)
    requires PlacedIn(ls, tcbs, {})
    ensures ls.Consistent() && ls.generic.Keys == tcbs.Keys
    ensures forall t :: t in tcbs ==> match ls.generic[t]
                                      case Ready(p) => p < MAX_PRIORITIES
                                      case Delayed(k) => k < 2
                                      case Suspended | Termination => true
                                      case _ => false
    ensures forall t, id: ListId :: t in ls.Items(id) <==> ls.Contains(id, t)
  {
  }

  // ----- Runs -----

  /** The unbounded clock and the deadlines of blocked tasks. The contract of each kernel operation says by which of
      these deeds it changes them: by none, by one, or when the scheduler is resumed by several. */
  datatype Clock = Clock(now: nat, due: map<Task, nat>)

  datatype Deed = Tick | Block(task: Task, ticks: nat) | Unblock(task: Task)

  function Next(c: Clock, d: Deed): Clock {
    match d
    case Tick => Clock(c.now + 1, map t | t in c.due && c.due[t] != c.now + 1 :: c.due[t])
    case Block(t, n) => Clock(c.now, c.due[t := c.now + n])
    case Unblock(t) => Clock(c.now, c.due - {t})
  }

  lemma LeftIsNext(c: Clock, woken: seq<Task>)
    requires forall t :: t in woken <==> t in c.due && c.due[t] == c.now + 1
    ensures Next(c, Tick) == Clock(c.now + 1, Left(c.due, woken))
  {
    assert Left(c.due, woken) == map t | t in c.due && c.due[t] != c.now + 1 :: c.due[t];
  }

  function After(c: Clock, deeds: seq<Deed>): Clock {
    if deeds == [] then c else Next(After(c, deeds[..|deeds| - 1]), deeds[|deeds| - 1])
  }

  lemma AfterMore(c: Clock, deeds: seq<Deed>, d: Deed)
    ensures After(c, deeds + [d]) == Next(After(c, deeds), d)
  {
    assert (deeds + [d])[..|deeds|] == deeds;
  }

  /** What `xTaskResumeAll` does: the pended tasks are unblocked, and then the missed ticks pass. */
  function Resumption(pended: seq<Task>, ticks: nat): seq<Deed> {
    if ticks > 0 then Resumption(pended, ticks - 1) + [Tick]
    else if pended == [] then []
    else Resumption(pended[..|pended| - 1], 0) + [Unblock(pended[|pended| - 1])]
  }

  /** The deadlines it leaves are those of the tasks neither pended nor due by then. */
  lemma {:induction false} AfterResumption(c: Clock, pended: seq<Task>, ticks: nat)
    requires forall t :: t in c.due ==> c.due[t] > c.now
    ensures After(c, Resumption(pended, ticks)).now == c.now + ticks
    ensures var due := After(c, Resumption(pended, ticks)).due;
            forall t ::
                (t in due <==> t in c.due && t !in pended && c.due[t] > c.now + ticks)
                    && (t in due ==> due[t] == c.due[t])
    decreases ticks, |pended|
  {
    if ticks > 0 {
      AfterResumption(c, pended, ticks - 1);
      AfterMore(c, Resumption(pended, ticks - 1), Tick);
    } else if pended != [] {
      var front, last := pended[..|pended| - 1], pended[|pended| - 1];
      AfterResumption(c, front, 0);
      AfterMore(c, Resumption(front, 0), Unblock(last));
      assert pended == front + [last];
    }
  }

  /** So it does exactly what the kernel's catching up does. */
  lemma CaughtUpIsAfter(before: Lists, c: Clock, pended: seq<Task>, ticks: nat, readied: seq<Task>)
    requires forall t :: t in c.due ==> c.due[t] > c.now
    requires forall t :: t in pended <==> PendedIn(before, t)
    requires CaughtUp(before, c.due, readied, c.now + ticks)
    ensures After(c, Resumption(pended, ticks)) == Clock(c.now + ticks, Left(c.due, readied))
  {
    AfterResumption(c, pended, ticks);
    hide After, Resumption;
    assert After(c, Resumption(pended, ticks)).due == Left(c.due, readied);
  }

  /** A task left alone is blocked until the tick that reaches its deadline, and from that tick on it is
      not, however the run goes. */
  lemma {:induction false} WokenOnTime(c: Clock, deeds: seq<Deed>, t: Task, deadline: nat)
    requires t in c.due <==> c.now < deadline
    requires t in c.due ==> c.due[t] == deadline
    requires forall d :: d in deeds ==> d.Tick? || d.task != t
    ensures var c' := After(c, deeds);
            && (t in c'.due <==> c'.now < deadline) && (t in c'.due ==> c'.due[t] == deadline)
    decreases |deeds|
  {
    if deeds != [] {
      assert deeds[|deeds| - 1] in deeds;
      WokenOnTime(c, deeds[..|deeds| - 1], t, deadline);
    }
  }

  /** The same over any run of kernel operations, each with the deeds its contract names: a task with a deadline that no
      operation blocks or unblocks is delayed at every moment before its deadline, and at no moment from then on. */
  lemma {:induction false} RunWakesOnTime(times: seq<Clock>, deeds: seq<seq<Deed>>, t: Task)
    requires |times| == |deeds| + 1 && t in times[0].due && times[0].now < times[0].due[t]
    requires forall i :: 0 <= i < |deeds| ==> times[i + 1] == After(times[i], deeds[i])
    requires forall i, d :: 0 <= i < |deeds| && d in deeds[i] ==> d.Tick? || d.task != t
    ensures var c := times[|deeds|];
            && (t in c.due <==> c.now < times[0].due[t]) && (t in c.due ==> c.due[t] == times[0].due[t])
    decreases |deeds|
  {
    var n := |deeds|;
    if n > 0 {
      RunWakesOnTime(times[..n], deeds[..n - 1], t);
      WokenOnTime(times[n - 1], deeds[n - 1], t, times[0].due[t]);
    }
  }
}
