/** The lists of the scheduler and the two list items of every task, as one value: what each list
    holds and where each item is. */
module TaskLists {
  import opened Common
  import opened Rings
  import opened SortedLists
  import opened Ticks

  /** The lists of tasks.c and, by number, the event lists of kernel objects. The two delayed lists
      keep their names when `pxDelayedTaskList` and `pxOverflowDelayedTaskList` are swapped. */
  datatype ListId =
    Ready(priority: nat) | Delayed(which: nat) | Suspended | Termination | PendingReady | Event(owner: nat)
  {
    /** Whether it is generic list items, and not event list items, that go on this list. */
    predicate ForGeneric() {
      Ready? || Delayed? || Suspended? || Termination?
    }
  }

  /** The members of `TCB_t` that the lists depend on; `wakeTime` and `eventValue` are the values of
      the two list items. */
  datatype Tcb = Tcb(priority: nat, basePriority: nat, wakeTime: Tick, eventValue: nat, mutexesHeld: nat)

  type Tcbs = map<Task, Tcb>

  datatype Lists = Lists(at: map<ListId, Ring<Task>>, generic: map<Task, ListId>, event: map<Task, ListId>) {
    function Get(id: ListId): Ring<Task> {
      if id in at then at[id] else EmptyRing()
    }

    function Items(id: ListId): seq<Task> {
      Get(id).items
    }

    /** Whether the container of the task's generic or event item is this list. */
    ghost predicate Contains(id: ListId, t: Task) {
      if id.ForGeneric() then t in generic && generic[t] == id else t in event && event[t] == id
    }

    /** An item is on the list its container names, once, and on no other. */
    ghost predicate Consistent() {
      && (forall id :: Get(id).Valid())
      && (forall id, t {:trigger t in Items(id)} {:trigger Contains(id, t)} :: t in Items(id) <==> Contains(id, t))
      && (forall t :: t in generic ==> generic[t].ForGeneric())
      && (forall t :: t in event ==> !event[t].ForGeneric())
    }

    /** `uxListRemove` of a generic item. */
    function RemoveGeneric(t: Task): (r: Lists)
      requires Consistent() && t in generic
      ensures r.Consistent() && r.generic == generic - {t} && r.event == event
      ensures forall id :: id != generic[t] ==> r.Get(id) == Get(id)
    {
      var ring := Get(generic[t]);
      assert t in Items(generic[t]) by {
        assert Contains(generic[t], t);
      }
      var r := Lists(at[generic[t] := RemoveItem(ring, t)], generic - {t}, event);
      assert r.Consistent() by {
        RemoveConsistent(this, generic[t], t, r);
      }
      r
    }

    /** `uxListRemove` of an event item, if it is on a list at all. */
    function RemoveEvent(t: Task): (r: Lists)
      requires Consistent()
      ensures r.Consistent() && r.generic == generic && r.event == event - {t}
      ensures forall id :: (t in event ==> id != event[t]) ==> r.Get(id) == Get(id)
    {
      if t in event then
        var ring := Get(event[t]);
        assert t in Items(event[t]) by {
          assert Contains(event[t], t);
        }
        var r := Lists(at[event[t] := RemoveItem(ring, t)], generic, event - {t});
        assert r.Consistent() by {
          RemoveConsistent(this, event[t], t, r);
        }
        r
      else
        this
    }

    /** `vListInsertEnd` of a generic item. */
    function AppendGeneric(id: ListId, t: Task): (r: Lists)
      requires Consistent() && t !in generic && id.ForGeneric()
      ensures r.Consistent() && r.generic == generic[t := id] && r.event == event
      ensures forall id' :: id' != id ==> r.Get(id') == Get(id')
    {
      var r := Lists(at[id := InsertEnd(Get(id), t)], generic[t := id], event);
      AppendedConsistent(this, id, t, r);
      r
    }

    /** `vListInsertEnd` of an event item. */
    function AppendEvent(id: ListId, t: Task): (r: Lists)
      requires Consistent() && t !in event && !id.ForGeneric()
      ensures r.Consistent() && r.generic == generic && r.event == event[t := id]
      ensures forall id' :: id' != id ==> r.Get(id') == Get(id')
    {
      var r := Lists(at[id := InsertEnd(Get(id), t)], generic, event[t := id]);
      AppendedConsistent(this, id, t, r);
      r
    }

    /** `vListInsert` of a generic item, at a place found from the item values. */
    function InsertGeneric(id: ListId, p: nat, t: Task): (r: Lists)
      requires Consistent() && t !in generic && id.ForGeneric() && p <= |Items(id)|
      ensures r.Consistent() && r.generic == generic[t := id] && r.event == event
      ensures forall id' :: id' != id ==> r.Get(id') == Get(id')
    {
      var r := Lists(at[id := InsertAt(Get(id), p, t)], generic[t := id], event);
      InsertedConsistent(this, id, p, t, r);
      r
    }

    /** `vListInsert` of an event item. */
    function InsertEvent(id: ListId, p: nat, t: Task): (r: Lists)
      requires Consistent() && t !in event && !id.ForGeneric() && p <= |Items(id)|
      ensures r.Consistent() && r.generic == generic && r.event == event[t := id]
      ensures forall id' :: id' != id ==> r.Get(id') == Get(id')
    {
      var r := Lists(at[id := InsertAt(Get(id), p, t)], generic, event[t := id]);
      InsertedConsistent(this, id, p, t, r);
      r
    }

    /** `listGET_OWNER_OF_NEXT_ENTRY` on a ready list: its index moves to the next task. */
    function WalkReady(p: nat): (r: Lists)
      requires Consistent() && Items(Ready(p)) != []
      ensures r.Consistent() && r.generic == generic && r.event == event
      ensures r.Get(Ready(p)) == Walk(Get(Ready(p))) && forall id :: r.Items(id) == Items(id)
      ensures forall id :: id != Ready(p) ==> r.Get(id) == Get(id)
    {
      var r := Lists(at[Ready(p) := Walk(Get(Ready(p)))], generic, event);
      assert forall id :: r.Items(id) == Items(id) && r.Get(id).Valid() by {
        assert forall id :: Get(id).Valid();
      }
      assert forall id, t :: r.Contains(id, t) == Contains(id, t);
      r
    }

    /** A task leaves whatever it waits on and joins the end of the ready list of its priority. */
    function Wake(t: Task, tcbs: Tcbs): (r: Lists)
      requires Consistent() && t in generic && t in tcbs
      ensures r.Consistent()
      ensures r.generic == generic[t := Ready(tcbs[t].priority)] && r.event == event - {t}
    {
      RemoveGeneric(t).RemoveEvent(t).AppendGeneric(Ready(tcbs[t].priority), t)
    }

    /** Several tasks woken one after the other. */
    function WakeAll(ts: seq<Task>, tcbs: Tcbs): (r: Lists)
      requires Consistent() && forall t :: t in ts ==> t in generic && t in tcbs
      ensures r.Consistent() && r.generic.Keys == generic.Keys
    {
      if ts == [] then this
      else WakeAll(ts[..|ts| - 1], tcbs).Wake(ts[|ts| - 1], tcbs)
    }
  }

  /** Every woken task is on the ready list of its priority and waits on nothing; no other moved. */
  lemma {:induction false} WakeAllPlaces(ls: Lists, ts: seq<Task>, tcbs: Tcbs)
    requires ls.Consistent() && forall t :: t in ts ==> t in ls.generic && t in tcbs
    ensures var r := ls.WakeAll(ts, tcbs);
            && (forall t :: t in ls.generic ==>
                  r.generic[t] == if t in ts then Ready(tcbs[t].priority) else ls.generic[t])
            && (forall t :: t in r.event <==> t in ls.event && t !in ts)
            && (forall t :: t in r.event ==> r.event[t] == ls.event[t])
  {
    hide Lists.Wake, Lists.Consistent;
    if ts != [] {
      var front, last := ts[..|ts| - 1], ts[|ts| - 1];
      WakeAllPlaces(ls, front, tcbs);
      assert ts == front + [last];
    }
  }

  /** Waking the task at the head of a delayed, suspended or pending list leaves the rest in order. */
  lemma WakeHead(ls: Lists, id: ListId, t: Task, tcbs: Tcbs)
    requires ls.Consistent() && t in ls.generic && t in tcbs && !id.Ready?
    requires ls.Items(id) != [] && ls.Items(id)[0] == t
    ensures ls.Wake(t, tcbs).Items(id) == ls.Items(id)[1..]
  {
    assert t in ls.Items(id) ==> ls.Contains(id, t);
    assert IndexOf(ls.Items(id), t) == 0;
  }

  /** Lists that a woken task was not on, and is not put on, stay as they are. */
  lemma WakeElsewhere(ls: Lists, id: ListId, t: Task, tcbs: Tcbs)
    requires ls.Consistent() && t in ls.generic && t in tcbs && t !in ls.Items(id) && id != Ready(tcbs[t].priority)
    ensures ls.Wake(t, tcbs).Get(id) == ls.Get(id)
  {
    assert !ls.Contains(id, t);
  }

  /** The two items of a task may be removed in either order. */
  lemma RemovesCommute(ls: Lists, t: Task)
    requires ls.Consistent() && t in ls.generic
    ensures ls.RemoveEvent(t).RemoveGeneric(t) == ls.RemoveGeneric(t).RemoveEvent(t)
  {
    if t in ls.event {
      var g, e := ls.generic[t], ls.event[t];
      assert ls.Contains(g, t) && ls.Contains(e, t);
      assert t in ls.Items(g) && t in ls.Items(e);
      var x, y := RemoveItem(ls.Get(g), t), RemoveItem(ls.Get(e), t);
      assert ls.at[g := x][e := y] == ls.at[e := y][g := x];
    }
  }

  lemma {:induction false} WakeMore(ls: Lists, ts: seq<Task>, us: seq<Task>, tcbs: Tcbs)
    requires ls.Consistent() && forall t :: t in ts + us ==> t in ls.generic && t in tcbs
    ensures ls.WakeAll(ts + us, tcbs) == ls.WakeAll(ts, tcbs).WakeAll(us, tcbs)
  {
    hide Lists.Wake, Lists.Consistent;
    if us == [] {
      assert ts + us == ts;
    } else {
      var front := us[..|us| - 1];
      assert (ts + us)[..|ts + us| - 1] == ts + front && (ts + us)[|ts + us| - 1] == us[|us| - 1];
      WakeMore(ls, ts, front, tcbs);
    }
  }

  // ----- Conservation -----

  /** Every list a generic item may be on. */
  function GenericLists(priorities: nat): seq<ListId> {
    if priorities == 0 then [Delayed(0), Delayed(1), Suspended, Termination]
    else GenericLists(priorities - 1) + [Ready(priorities - 1)]
  }

  lemma {:induction false} GenericListsAre(priorities: nat)
    ensures forall id :: id in GenericLists(priorities) <==>
              match id
              case Ready(p) => p < priorities
              case Delayed(k) => k < 2
              case Suspended | Termination => true
              case _ => false
    ensures forall i, j ::
              0 <= i < j < |GenericLists(priorities)| ==> GenericLists(priorities)[i] != GenericLists(priorities)[j]
  {
    if priorities > 0 {
      GenericListsAre(priorities - 1);
      assert Ready(priorities - 1) !in GenericLists(priorities - 1);
    }
  }

  function Lengths(ls: Lists, ids: seq<ListId>): nat {
    if ids == [] then 0 else Lengths(ls, ids[..|ids| - 1]) + |ls.Items(ids[|ids| - 1])|
  }

  ghost function On(ls: Lists, ids: seq<ListId>): set<Task> {
    set t | t in ls.generic && ls.generic[t] in ids
  }

  /** The lengths of distinct lists add up to the number of tasks whose generic item is on one. */
  lemma {:induction false} LengthsCount(ls: Lists, ids: seq<ListId>)
    requires ls.Consistent() && forall id :: id in ids ==> id.ForGeneric()
    requires forall i, j :: 0 <= i < j < |ids| ==> ids[i] != ids[j]
    ensures Lengths(ls, ids) == |On(ls, ids)|
  {
    if ids != [] {
      var front, last := ids[..|ids| - 1], ids[|ids| - 1];
      LengthsCount(ls, front);
      OnSplit(ls, front, last);
      assert ids == front + [last];
    }
  }

  lemma OnSplit(ls: Lists, front: seq<ListId>, last: ListId)
    requires ls.Consistent() && last.ForGeneric() && last !in front
    ensures |On(ls, front + [last])| == |On(ls, front)| + |ls.Items(last)|
  {
    var here := Elements(ls.Items(last));
    DistinctCount(ls.Items(last));
    forall t
      ensures t in On(ls, front + [last]) <==> t in On(ls, front) || t in here
      ensures !(t in On(ls, front) && t in here)
    {
      assert t in ls.Items(last) <==> ls.Contains(last, t);
    }
    assert On(ls, front + [last]) == On(ls, front) + here;
  }

  ghost function Elements(s: seq<Task>): set<Task> {
    set t | t in s
  }

  lemma {:induction false} DistinctCount(s: seq<Task>)
    requires forall i, j :: 0 <= i < j < |s| ==> s[i] != s[j]
    ensures |Elements(s)| == |s|
  {
    if s != [] {
      var front, last := s[..|s| - 1], s[|s| - 1];
      DistinctCount(front);
      assert s == front + [last];
      assert Elements(s) == Elements(front) + {last};
    }
  }

  function RemoveItem(r: Ring<Task>, t: Task): (r': Ring<Task>)
    requires r.Valid() && t in r.items
    ensures r'.Valid() && t !in r'.items && |r'.items| == |r.items| - 1
  {
    RemoveElements(r, IndexOf(r.items, t));
    RemoveAt(r, IndexOf(r.items, t))
  }

  /** An index rests on the same item as before, or if that is the one removed on the item before it. */
  lemma RemoveItemIndex(r: Ring<Task>, t: Task)
    requires r.Valid() && t in r.items
    ensures forall x :: x != t && r.RestsOn(x) ==> RemoveItem(r, t).RestsOn(x)
    ensures r.at == 0 ==> RemoveItem(r, t).at == 0
    ensures r.RestsOn(t) ==>
              var r' := RemoveItem(r, t);
              r'.at == r.at - 1 && if r.at == 1 then r.items[0] == t else r'.RestsOn(r.items[r.at - 2])
  {
    var k := IndexOf(r.items, t);
    assert r.RestsOn(t) ==> k == r.at - 1;
  }

  function IndexOf(s: seq<Task>, t: Task): (k: nat)
    requires t in s
    ensures k < |s| && s[k] == t
  {
    if s[0] == t then 0 else 1 + IndexOf(s[1..], t)
  }

  lemma RemoveElements(r: Ring<Task>, k: nat)
    requires r.Valid() && k < |r.items|
    ensures forall x :: x in RemoveAt(r, k).items <==> x in r.items && x != r.items[k]
  {
    var s := RemoveAt(r, k).items;
    forall x | x in r.items && x != r.items[k]
      ensures x in s
    {
      var i :| 0 <= i < |r.items| && r.items[i] == x;
      assert s[if i < k then i else i - 1] == x;
    }
  }

  lemma InsertEndElements(r: Ring<Task>, y: Task)
    requires r.Valid() && y !in r.items
    ensures InsertEnd(r, y).Valid() && forall x :: x in InsertEnd(r, y).items <==> x in r.items || x == y
  {
    assert r.at > 0 ==> r.items == r.items[..r.at - 1] + r.items[r.at - 1..];
  }

  lemma InsertAtElements(r: Ring<Task>, p: nat, y: Task)
    requires r.Valid() && p <= |r.items| && y !in r.items
    ensures InsertAt(r, p, y).Valid() && forall x :: x in InsertAt(r, p, y).items <==> x in r.items || x == y
  {
    assert r.items == r.items[..p] + r.items[p..];
  }

  lemma RemoveConsistent(ls: Lists, id: ListId, t: Task, r: Lists)
    requires ls.Consistent() && t in ls.Items(id)
    requires r.at == ls.at[id := RemoveItem(ls.Get(id), t)]
    requires r.generic == if id.ForGeneric() then ls.generic - {t} else ls.generic
    requires r.event == if id.ForGeneric() then ls.event else ls.event - {t}
    ensures r.Consistent()
  {
    RemoveElements(ls.Get(id), IndexOf(ls.Items(id), t));
    assert ls.Contains(id, t);
    forall id', t'
      ensures t' in r.Items(id') <==> r.Contains(id', t')
    {
      assert t' in ls.Items(id') <==> ls.Contains(id', t');
    }
    forall id'
      ensures r.Get(id').Valid()
    {
      assert ls.Get(id').Valid();
    }
  }

  lemma AppendedConsistent(ls: Lists, id: ListId, t: Task, r: Lists)
    requires ls.Consistent() && if id.ForGeneric() then t !in ls.generic else t !in ls.event
    requires r.at == ls.at[id := InsertEnd(ls.Get(id), t)]
    requires r.generic == if id.ForGeneric() then ls.generic[t := id] else ls.generic
    requires r.event == if id.ForGeneric() then ls.event else ls.event[t := id]
    ensures r.Consistent()
  {
    assert !ls.Contains(id, t);
    InsertEndElements(ls.Get(id), t);
    InsertConsistent(ls, id, t, r);
  }

  lemma InsertedConsistent(ls: Lists, id: ListId, p: nat, t: Task, r: Lists)
    requires ls.Consistent() && (if id.ForGeneric() then t !in ls.generic else t !in ls.event) && p <= |ls.Items(id)|
    requires r.at == ls.at[id := InsertAt(ls.Get(id), p, t)]
    requires r.generic == if id.ForGeneric() then ls.generic[t := id] else ls.generic
    requires r.event == if id.ForGeneric() then ls.event else ls.event[t := id]
    ensures r.Consistent()
  {
    assert !ls.Contains(id, t);
    InsertAtElements(ls.Get(id), p, t);
    InsertConsistent(ls, id, t, r);
  }

  lemma InsertConsistent(ls: Lists, id: ListId, t: Task, r: Lists)
    requires ls.Consistent() && !ls.Contains(id, t) && if id.ForGeneric() then t !in ls.generic else t !in ls.event
    requires r.at.Keys == ls.at.Keys + {id} && forall id' :: id' != id ==> r.Get(id') == ls.Get(id')
    requires r.Get(id).Valid() && forall x :: x in r.Items(id) <==> x in ls.Items(id) || x == t
    requires r.generic == if id.ForGeneric() then ls.generic[t := id] else ls.generic
    requires r.event == if id.ForGeneric() then ls.event else ls.event[t := id]
    ensures r.Consistent()
  {
    forall id', t'
      ensures t' in r.Items(id') <==> r.Contains(id', t')
    {
      assert t' in ls.Items(id') <==> ls.Contains(id', t');
    }
    forall id'
      ensures r.Get(id').Valid()
    {
      assert ls.Get(id').Valid();
    }
  }
}
