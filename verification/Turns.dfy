/** Whose turn it is among ready tasks of one priority, and what each operation of the kernel does to the order of
    turns. */
module Turns {
  import opened Common
  import opened Rings
  import opened TaskLists

  /** The tasks of a ready list in the order in which repeated walks choose them. If the index rests on a task, that one
      has just had its turn and is the last. */
  datatype Turns = Turns(order: seq<Task>, rests: bool)

  function TurnsOf(r: Ring<Task>): Turns
    requires r.at <= |r.items|
  {
    Turns(r.Upcoming(), r.at > 0)
  }

  /** Tasks that join get their turns after all others, except that the one that has just had its own goes on being the
      last. */
  function Joined(s: Turns, ts: seq<Task>): Turns {
    var n := |s.order|;
    if s.rests && n > 0 then Turns(s.order[..n - 1] + ts + [s.order[n - 1]], true) else Turns(s.order + ts, s.rests)
  }

  lemma JoinedTwice(s: Turns, ts: seq<Task>, us: seq<Task>)
    requires s.rests ==> s.order != []
    ensures Joined(Joined(s, ts), us) == Joined(s, ts + us)
    ensures Joined(s, []) == s
  {
    var n := |s.order|;
    if s.rests && n > 0 {
      var front, last := s.order[..n - 1], s.order[n - 1];
      assert s.order == front + [last];
      assert front + [] + [last] == front + [last];
      var order := front + ts + [last];
      assert order[..|order| - 1] == front + ts && order[|order| - 1] == last;
      assert front + ts + us + [last] == front + (ts + us) + [last];
    } else {
      assert s.order + ts + us == s.order + (ts + us);
    }
  }

  /** `vListInsertEnd` gives the task the place of one that joins. */
  lemma InsertEndJoins(r: Ring<Task>, t: Task)
    requires r.at <= |r.items|
    ensures InsertEnd(r, t).at <= |InsertEnd(r, t).items| && TurnsOf(InsertEnd(r, t)) == Joined(TurnsOf(r), [t])
  {
    if r.at > 0 {
      FrontJoins(r.items[..r.at - 1], r.items[r.at - 1], r.items[r.at..], t);
      assert r.items == r.items[..r.at - 1] + [r.items[r.at - 1]] + r.items[r.at..];
    }
  }

  lemma FrontJoins(a: seq<Task>, x: Task, b: seq<Task>, t: Task)
    ensures var r := Ring(a + [x] + b, |a| + 1);
            && InsertEnd(r, t).at <= |InsertEnd(r, t).items|
            && TurnsOf(InsertEnd(r, t)) == Joined(TurnsOf(r), [t])
  {
    var r := Ring(a + [x] + b, |a| + 1);
    assert r.items[..|a|] == a && r.items[|a|..] == [x] + b;
    assert r.Upcoming() == b + (a + [x]) == (b + a) + [x];
    var r' := InsertEnd(r, t);
    assert r'.items == a + [t] + [x] + b;
    assert r'.items[..|a| + 2] == a + [t] + [x] && r'.items[|a| + 2..] == b;
    assert r'.Upcoming() == b + (a + [t] + [x]) == b + a + [t] + [x];
  }

  /** `uxListRemove` takes the task out of the order and leaves the order of the others. */
  lemma RemoveItemParts(r: Ring<Task>, t: Task)
    requires r.Valid() && t in r.items
    ensures var r' := RemoveItem(r, t);
            && t in r.Upcoming() && r'.Upcoming() == Without(r.Upcoming(), t) && (r'.at > 0 ==> r.at > 0)
  {
    var k := IndexOf(r.items, t);
    var u, d := r.Upcoming(), DistanceOf(r, k);
    UpcomingAt(r, k);
    UpcomingDistinct(r);
    DistinctBefore(u, d);
    WithoutAt(u, d);
    RemoveUpcoming(r, k);
  }

  lemma UpcomingAt(r: Ring<Task>, k: nat)
    requires r.at <= |r.items| && k < |r.items|
    ensures DistanceOf(r, k) < |r.Upcoming()| && r.Upcoming()[DistanceOf(r, k)] == r.items[k]
  {
  }

  lemma DistinctBefore(s: seq<Task>, d: nat)
    requires Distinct(s) && d < |s|
    ensures s[d] !in s[..d]
  {
  }

  lemma RemoveUpcoming(r: Ring<Task>, k: nat)
    requires r.at <= |r.items| && k < |r.items|
    ensures var u, d := r.Upcoming(), DistanceOf(r, k); RemoveAt(r, k).Upcoming() == u[..d] + u[d + 1..]
  {
    var a, b := r.items[..r.at], r.items[r.at..];
    assert r.items == a + b;
    if k < r.at {
      RemoveFront(a, b, k);
    } else {
      RemoveBack(a, b, k - r.at);
    }
  }

  lemma RemoveFront(a: seq<Task>, b: seq<Task>, k: nat)
    requires k < |a|
    ensures RemoveAt(Ring(a + b, |a|), k).Upcoming() == (b + a)[..|b| + k] + (b + a)[|b| + k + 1..]
  {
    var items := (a + b)[..k] + (a + b)[k + 1..];
    assert items[..|a| - 1] == a[..k] + a[k + 1..] && items[|a| - 1..] == b;
    assert (b + a)[..|b| + k] == b + a[..k] && (b + a)[|b| + k + 1..] == a[k + 1..];
    assert b + (a[..k] + a[k + 1..]) == b + a[..k] + a[k + 1..];
  }

  lemma RemoveBack(a: seq<Task>, b: seq<Task>, k: nat)
    requires k < |b|
    ensures RemoveAt(Ring(a + b, |a|), |a| + k).Upcoming() == (b + a)[..k] + (b + a)[k + 1..]
  {
    var items := (a + b)[..|a| + k] + (a + b)[|a| + k + 1..];
    assert items[..|a|] == a && items[|a|..] == b[..k] + b[k + 1..];
    assert (b + a)[..k] == b[..k] && (b + a)[k + 1..] == b[k + 1..] + a;
    assert b[..k] + b[k + 1..] + a == b[..k] + (b[k + 1..] + a);
  }

  lemma UpcomingDistinct(r: Ring<Task>)
    requires r.Valid()
    ensures Distinct(r.Upcoming()) && forall x :: x in r.Upcoming() <==> x in r.items
  {
    var u := r.Upcoming();
    assert r.items == r.items[..r.at] + r.items[r.at..];
    assert forall i ::
        0 <= i < |u| ==> u[i] == r.items[if i < |r.items| - r.at then i + r.at else i - (|r.items| - r.at)];
  }

  /** A walk gives the first in the order its turn, which makes it the last. */
  lemma WalkTakes(r: Ring<Task>)
    requires r.at <= |r.items| && r.items != []
    ensures TurnsOf(Walk(r)) == Turns(r.Upcoming()[1..] + [r.Upcoming()[0]], true)
  {
    var u := r.Upcoming();
    if r.at == |r.items| {
      assert u == r.items;
      assert Walk(r).Upcoming() == r.items[1..] + r.items[..1];
    } else {
      assert r.items[..r.at + 1] == r.items[..r.at] + [r.items[r.at]];
      assert u[1..] + [u[0]] == r.items[r.at + 1..] + (r.items[..r.at] + [r.items[r.at]]);
    }
  }

  // ----- The ready lists -----

  function TurnsAt(ls: Lists, p: nat): Turns {
    var r := ls.Get(Ready(p));
    if r.at <= |r.items| then TurnsOf(r) else Turns(r.items, false)
  }

  /** Those of some tasks that have a priority. */
  function OfPriority(ts: seq<Task>, tcbs: Tcbs, p: nat): seq<Task> {
    if ts == [] then []
    else
      var rest, t := OfPriority(ts[..|ts| - 1], tcbs, p), ts[|ts| - 1];
      if t in tcbs && tcbs[t].priority == p then rest + [t] else rest
  }

  lemma {:induction false} OfPriorityMore(ts: seq<Task>, us: seq<Task>, tcbs: Tcbs, p: nat)
    ensures OfPriority(ts + us, tcbs, p) == OfPriority(ts, tcbs, p) + OfPriority(us, tcbs, p)
  {
    if us == [] {
      assert ts + us == ts;
    } else {
      var n := |us| - 1;
      assert (ts + us)[..|ts| + n] == ts + us[..n] && (ts + us)[|ts| + n] == us[n];
      OfPriorityMore(ts, us[..n], tcbs, p);
    }
  }

  /** Some tasks have joined the ready lists of their priorities, one after the other, and nothing else has changed
      about whose turn it is. */
  ghost predicate Joins(ls: Lists, ls': Lists, ts: seq<Task>, tcbs: Tcbs) {
    forall p :: TurnsAt(ls', p) == Joined(TurnsAt(ls, p), OfPriority(ts, tcbs, p))
  }

  /** A task has left a ready list. */
  ghost predicate Leaves(ls: Lists, ls': Lists, t: Task, q: nat) {
    && t in TurnsAt(ls, q).order && TurnsAt(ls', q).order == Without(TurnsAt(ls, q).order, t)
    && (TurnsAt(ls', q).rests ==> TurnsAt(ls, q).rests)
    && forall p :: p != q ==> TurnsAt(ls', p) == TurnsAt(ls, p)
  }

  /** The first task of a ready list has had its turn. */
  ghost predicate Takes(ls: Lists, ls': Lists, t: Task, q: nat) {
    && TurnsAt(ls, q).order != [] && t == TurnsAt(ls, q).order[0]
    && TurnsAt(ls', q) == Turns(TurnsAt(ls, q).order[1..] + [t], true)
    && forall p :: p != q ==> TurnsAt(ls', p) == TurnsAt(ls, p)
  }

  /** Whose turn it is has not changed. */
  ghost predicate SameTurns(ls: Lists, ls': Lists) {
    forall p :: TurnsAt(ls', p) == TurnsAt(ls, p)
  }

  /** A task has left its ready list, if it was on one. */
  ghost predicate Quits(ls: Lists, ls': Lists, t: Task) {
    if t in ls.generic && ls.generic[t].Ready? then Leaves(ls, ls', t, ls.generic[t].priority) else SameTurns(ls, ls')
  }

  /** A ready task has left its list for the end of the turns of its new priority; any other has not moved. */
  ghost predicate Requeues(ls: Lists, ls': Lists, t: Task, tcbs: Tcbs) {
    if t in ls.generic && ls.generic[t].Ready? then
      exists mid: Lists ::
        && mid.Consistent() && mid.generic == ls.generic - {t}
        && Leaves(ls, mid, t, ls.generic[t].priority) && Joins(mid, ls', [t], tcbs)
    else
      SameTurns(ls, ls')
  }

  lemma JoinsNone(ls: Lists, ls': Lists, tcbs: Tcbs)
    requires SameTurns(ls, ls')
    ensures Joins(ls, ls', [], tcbs)
  {
    forall p
      ensures TurnsAt(ls', p) == Joined(TurnsAt(ls, p), OfPriority([], tcbs, p))
    {
      JoinedTwice(TurnsAt(ls, p), [], []);
    }
  }

  lemma JoinsMore(ls: Lists, ls1: Lists, ls2: Lists, ts: seq<Task>, us: seq<Task>, tcbs: Tcbs)
    requires Joins(ls, ls1, ts, tcbs) && Joins(ls1, ls2, us, tcbs)
    ensures Joins(ls, ls2, ts + us, tcbs)
  {
    forall p
      ensures TurnsAt(ls2, p) == Joined(TurnsAt(ls, p), OfPriority(ts + us, tcbs, p))
    {
      OfPriorityMore(ts, us, tcbs, p);
      JoinedTwice(TurnsAt(ls, p), OfPriority(ts, tcbs, p), OfPriority(us, tcbs, p));
    }
  }

  lemma {:induction false} OfPriorityAre(ts: seq<Task>, tcbs: Tcbs, p: nat)
    ensures forall t :: t in OfPriority(ts, tcbs, p) <==> t in ts && t in tcbs && tcbs[t].priority == p
  {
    if ts != [] {
      var n := |ts| - 1;
      OfPriorityAre(ts[..n], tcbs, p);
      assert ts == ts[..n] + [ts[n]];
    }
  }

  lemma OneOfPriority(t: Task, tcbs: Tcbs, p: nat)
    ensures OfPriority([t], tcbs, p) == if t in tcbs && tcbs[t].priority == p then [t] else []
  {
    assert [t][..0] == [];
  }

  /** A task at the end of the ready list of its priority has joined. */
  lemma AppendJoins(ls: Lists, t: Task, tcbs: Tcbs)
    requires ls.Consistent() && t !in ls.generic && t in tcbs
    ensures Joins(ls, ls.AppendGeneric(Ready(tcbs[t].priority), t), [t], tcbs)
  {
    var ls' := ls.AppendGeneric(Ready(tcbs[t].priority), t);
    forall p
      ensures TurnsAt(ls', p) == Joined(TurnsAt(ls, p), OfPriority([t], tcbs, p))
    {
      OneOfPriority(t, tcbs, p);
      assert ls.Get(Ready(p)).Valid();
      if p == tcbs[t].priority {
        InsertEndJoins(ls.Get(Ready(p)), t);
      } else {
        JoinedTwice(TurnsAt(ls, p), [], []);
      }
    }
  }

  lemma RemoveAside(ls: Lists, t: Task)
    requires ls.Consistent()
    ensures SameTurns(ls, ls.RemoveEvent(t))
    ensures t in ls.generic && !ls.generic[t].Ready? ==> SameTurns(ls, ls.RemoveGeneric(t))
  {
  }

  lemma RemoveLeaves(ls: Lists, t: Task)
    requires ls.Consistent() && t in ls.generic && ls.generic[t].Ready?
    ensures Leaves(ls, ls.RemoveGeneric(t), t, ls.generic[t].priority)
  {
    var q := ls.generic[t].priority;
    assert ls.Contains(Ready(q), t);
    RemoveItemParts(ls.Get(Ready(q)), t);
  }

  /** Waking a task that is not ready. */
  lemma WakeJoins(ls: Lists, t: Task, tcbs: Tcbs)
    requires ls.Consistent() && t in ls.generic && t in tcbs && !ls.generic[t].Ready?
    ensures Joins(ls, ls.Wake(t, tcbs), [t], tcbs)
  {
    var ls1 := ls.RemoveGeneric(t);
    var ls2 := ls1.RemoveEvent(t);
    RemoveAside(ls, t);
    RemoveAside(ls1, t);
    AppendJoins(ls2, t, tcbs);
  }

  lemma WalkReadyTakes(ls: Lists, q: nat)
    requires ls.Consistent() && ls.Items(Ready(q)) != []
    ensures ls.Get(Ready(q)).at <= |ls.Items(Ready(q))|
    ensures Takes(ls, ls.WalkReady(q), ls.Get(Ready(q)).Upcoming()[0], q)
  {
    assert ls.Get(Ready(q)).Valid();
    WalkTakes(ls.Get(Ready(q)));
  }

  // ----- Bounded waiting -----

  /** Where a task stands in the order: how many others have their turns before it. */
  function Place(s: Turns, x: Task): (k: nat)
    requires x in s.order
    ensures k < |s.order| && s.order[k] == x
  {
    IndexOf(s.order, x)
  }

  lemma PlaceUnique(s: Turns, k: nat)
    requires Distinct(s.order) && k < |s.order|
    ensures Place(s, s.order[k]) == k
  {
  }

  /** The task has just had its turn: the only position in which others that join are put before it. */
  predicate JustHad(s: Turns, x: Task) {
    s.rests && s.order != [] && s.order[|s.order| - 1] == x
  }

  /** Tasks that join put nobody off but the one that has just had its turn, and that one by one turn each; they come
      behind all others, in the order in which they join. */
  lemma JoinedPlaces(s: Turns, ts: seq<Task>)
    requires Distinct(s.order) && Distinct(ts) && forall t :: t in ts ==> t !in s.order
    ensures Distinct(Joined(s, ts).order)
    ensures forall x :: x in Joined(s, ts).order <==> x in s.order || x in ts
    ensures forall x :: x in s.order ==>
              Place(Joined(s, ts), x) == Place(s, x) + if JustHad(s, x) then |ts| else 0
    ensures forall i, x :: 0 <= i < |ts| && x in s.order && !JustHad(s, x) ==>
              Place(s, x) < Place(Joined(s, ts), ts[i])
    ensures forall i, j :: 0 <= i < j < |ts| ==> Place(Joined(s, ts), ts[i]) < Place(Joined(s, ts), ts[j])
  {
    var s', n := Joined(s, ts), |s.order|;
    var had := s.rests && n > 0;
    var m := if had then n - 1 else n;
    assert s.order == s.order[..m] + s.order[m..];
    assert s'.order == s.order[..m] + ts + s.order[m..];
    JoinedDistinct(s.order[..m], ts, s.order[m..]);
    hide Distinct, Joined, Place, JustHad;
    forall x | x in s.order
      ensures x in s'.order && Place(s', x) == Place(s, x) + if JustHad(s, x) then |ts| else 0
      ensures JustHad(s, x) || Place(s, x) < m
    {
      OldPlace(s, ts, Place(s, x));
    }
    forall i | 0 <= i < |ts|
      ensures ts[i] in s'.order && Place(s', ts[i]) == m + i
    {
      NewPlace(s, ts, i);
    }
  }

  lemma OldPlace(s: Turns, ts: seq<Task>, k: nat)
    requires Distinct(s.order) && Distinct(Joined(s, ts).order) && k < |s.order|
    ensures s.order[k] in Joined(s, ts).order
    ensures Place(Joined(s, ts), s.order[k]) == k + if JustHad(s, s.order[k]) then |ts| else 0
    ensures JustHad(s, s.order[k]) || k < if s.rests then |s.order| - 1 else |s.order|
  {
    JoinedAt(s, ts, k);
    PlaceUnique(Joined(s, ts), if JustHad(s, s.order[k]) then k + |ts| else k);
  }

  lemma NewPlace(s: Turns, ts: seq<Task>, i: nat)
    requires Distinct(Joined(s, ts).order) && i < |ts|
    ensures ts[i] in Joined(s, ts).order
    ensures Place(Joined(s, ts), ts[i]) == i + if s.rests && s.order != [] then |s.order| - 1 else |s.order|
  {
    var m := if s.rests && s.order != [] then |s.order| - 1 else |s.order|;
    assert Joined(s, ts).order[m + i] == ts[i];
    PlaceUnique(Joined(s, ts), m + i);
  }

  lemma JoinedDistinct(a: seq<Task>, ts: seq<Task>, b: seq<Task>)
    requires Distinct(a + b) && Distinct(ts) && forall t :: t in ts ==> t !in a + b
    ensures Distinct(a + ts + b)
  {
    var s, u, n := a + ts + b, a + b, |ts|;
    forall i, j | 0 <= i < j < |s|
      ensures s[i] != s[j]
    {
      if |a| <= i < |a| + n {
        assert s[i] in ts && (j < |a| + n ==> s[j] == ts[j - |a|]) && (j >= |a| + n ==> s[j] == u[j - n]);
      } else if |a| <= j < |a| + n {
        assert s[j] in ts && s[i] == u[i];
      } else {
        assert s[i] == u[if i < |a| then i else i - n] && s[j] == u[if j < |a| then j else j - n];
      }
    }
  }

  /** What one operation of the kernel does to the turns on all ready lists. */
  datatype Move = Readied(tasks: seq<Task>, tcbs: Tcbs) | Departed(task: Task, priority: nat)
                | Chosen(task: Task, priority: nat) | Aside

  ghost predicate Moves(ls: Lists, m: Move, ls': Lists) {
    match m
    case Readied(ts, tcbs) => Joins(ls, ls', ts, tcbs)
    case Departed(t, q) => Leaves(ls, ls', t, q)
    case Chosen(t, q) => Takes(ls, ls', t, q)
    case Aside => SameTurns(ls, ls')
  }

  /** A task that stays ready at a priority. */
  ghost predicate Stays(ls: Lists, p: nat, x: Task) {
    ls.Consistent() && x in ls.generic && ls.generic[x] == Ready(p)
  }

  lemma StaysInOrder(ls: Lists, p: nat, x: Task)
    requires Stays(ls, p, x)
    ensures x in TurnsAt(ls, p).order && Distinct(TurnsAt(ls, p).order)
  {
    assert ls.Contains(Ready(p), x);
    assert ls.Get(Ready(p)).Valid();
    UpcomingDistinct(ls.Get(Ready(p)));
  }

  /** How many tasks an operation puts before the task. */
  ghost function PutBefore(ls: Lists, m: Move, p: nat, x: Task): nat {
    if m.Readied? && JustHad(TurnsAt(ls, p), x) then |OfPriority(m.tasks, m.tcbs, p)| else 0
  }

  /** No operation puts a task off but one that readies others while the task has just had its turn; every turn taken by
      another brings it one closer. */
  lemma MoveStep(ls: Lists, m: Move, ls': Lists, p: nat, x: Task)
    requires Stays(ls, p, x) && Stays(ls', p, x) && Moves(ls, m, ls')
    requires m != Chosen(x, p) && m != Departed(x, p)
    ensures x in TurnsAt(ls, p).order && x in TurnsAt(ls', p).order
    ensures Place(TurnsAt(ls', p), x) + (if m.Chosen? && m.priority == p then 1 else 0)
         <= Place(TurnsAt(ls, p), x) + PutBefore(ls, m, p, x)
  {
    hide Lists.Consistent, TurnsAt, OfPriority;
    StaysInOrder(ls, p, x);
    StaysInOrder(ls', p, x);
    var s, s' := TurnsAt(ls, p), TurnsAt(ls', p);
    var k := Place(s, x);
    match m {
      case Readied(ts, tcbs) => {
        var us, n := OfPriority(ts, tcbs, p), |s.order|;
        var k' := if JustHad(s, x) then k + |us| else k;
        JoinedAt(s, us, k);
        PlaceUnique(s', k');
      }
      case Departed(t, q) => {
        if q == p {
          var d := Place(s, t);
          PlaceFirst(s, t);
          WithoutAt(s.order, d);
          PlaceUnique(s', if d < k then k - 1 else k);
        }
      }
      case Chosen(t, q) => {
        if q == p {
          PlaceUnique(s', k - 1);
        }
      }
      case Aside => {
      }
    }
  }

  lemma PlaceFirst(s: Turns, t: Task)
    requires Distinct(s.order) && t in s.order
    ensures t !in s.order[..Place(s, t)]
  {
  }

  lemma JoinedAt(s: Turns, ts: seq<Task>, k: nat)
    requires Distinct(s.order) && k < |s.order|
    ensures var s', k' := Joined(s, ts), if JustHad(s, s.order[k]) then k + |ts| else k;
            k' < |s'.order| && s'.order[k'] == s.order[k]
  {
    var n := |s.order|;
    assert k == n - 1 || s.order[k] != s.order[n - 1];
  }

  ghost function Choices(ms: seq<Move>, p: nat): nat {
    if ms == [] then 0
    else Choices(ms[..|ms| - 1], p) + if ms[|ms| - 1].Chosen? && ms[|ms| - 1].priority == p then 1 else 0
  }

  ghost function Overtaken(lists: seq<Lists>, ms: seq<Move>, p: nat, x: Task): nat
    requires |lists| == |ms| + 1
  {
    var n := |ms|;
    if n == 0 then 0 else Overtaken(lists[..n], ms[..n - 1], p, x) + PutBefore(lists[n - 1], ms[n - 1], p, x)
  }

  /** Bounded waiting: over any run of operations of the kernel in which a task stays ready at its priority and is not
      chosen, the choices of others of that priority are no more than the tasks before it at the start, and those that
      became ready while it had just had its turn. */
  lemma {:induction false} BoundedTurns(lists: seq<Lists>, ms: seq<Move>, p: nat, x: Task)
    requires |lists| == |ms| + 1 && forall i :: 0 <= i < |lists| ==> Stays(lists[i], p, x)
    requires forall i :: 0 <= i < |ms| ==> Moves(lists[i], ms[i], lists[i + 1])
    requires Chosen(x, p) !in ms && Departed(x, p) !in ms
    ensures x in TurnsAt(lists[0], p).order && x in TurnsAt(lists[|ms|], p).order
    ensures Choices(ms, p) + Place(TurnsAt(lists[|ms|], p), x)
         <= Place(TurnsAt(lists[0], p), x) + Overtaken(lists, ms, p, x)
    decreases |ms|
  {
    hide Moves, Stays, PutBefore, TurnsAt;
    var n := |ms|;
    StaysInOrder(lists[0], p, x);
    if n > 0 {
      assert forall m :: m in ms[..n - 1] ==> m in ms;
      BoundedTurns(lists[..n], ms[..n - 1], p, x);
      assert ms[n - 1] in ms && Moves(lists[n - 1], ms[n - 1], lists[n]);
      MoveStep(lists[n - 1], ms[n - 1], lists[n], p, x);
    }
  }
}
