/** Software timers of timers.c: two lists of active timers that are switched when the tick counter is seen to
    have wrapped, and a queue of commands that carry the time at which they were issued. */
module Timers {
  import opened Common
  import opened Ticks
  import opened SortedLists

  type Timer = nat

  /** `Timer_t`: the period, whether the timer reloads, and the value of its list item. */
  datatype Control = Control(period: Tick, autoReload: bool, value: Tick)

  type Controls = map<Timer, Control>

  datatype Command = Start | Stop | ChangePeriod | Delete

  /** `DaemonTaskMessage_t`. `sentAt` is the moment of the unbounded clock that the value of a start command
      stands for. */
  datatype Message = Message(command: Command, timer: Timer, value: Tick, ghost sentAt: nat)

  // ----- Where a timer goes -----

  datatype Placement = ProcessNow | OnCurrent | OnOverflow

  /** The decision of `prvInsertTimerInActiveList`. */
  function Placed(nextExpiryTime: Tick, timeNow: Tick, commandTime: Tick, period: Tick): Placement {
    if nextExpiryTime <= timeNow then
      if Minus(timeNow, commandTime) >= period then ProcessNow else OnOverflow
    else
      if timeNow < commandTime && nextExpiryTime >= commandTime then ProcessNow else OnCurrent
  }

  /** A timer commanded at C with period p and inserted at T, less than a counter period later, is processed at
      once exactly when it has expired by then, and otherwise joins the current list exactly when its expiry
      is in the epoch of T. */
  lemma PlacementExact(command: nat, period: Tick, now: nat)
    requires command <= now < command + M && 0 < period
    ensures var placement := Placed(Wrap(command + period), Wrap(now), Wrap(command), period);
            && (placement == ProcessNow <==> command + period <= now)
            && (placement == OnCurrent ==> Epoch(command + period) == Epoch(now))
            && (placement == OnOverflow ==> Epoch(command + period) == Epoch(now) + 1)
  {
    Advance(command, period);
    Advance(command, now - command);
    Elapsed(command, now);
    if now < command + period {
      Advance(now, command + period - now);
    }
  }

  /** A command handled later than that is still judged right exactly when the time by which it is late,
      taken modulo the counter, is no shorter than the period. */
  lemma PlacementLate(command: nat, period: Tick, now: nat)
    requires command <= now && 0 < period
    ensures (Placed(Wrap(command + period), Wrap(now), Wrap(command), period) == ProcessNow <==>
              command + period <= now)
       <==> now - command < M || Wrap(now - command) >= period
  {
    Advance(command, period);
    Elapsed(command, now);
  }

  /** One such command: a period of one tick, handled a whole counter period late, is taken to be running. */
  lemma PlacementMissed()
    ensures Placed(Wrap(0 + 1), Wrap(M), Wrap(0), 1) == OnCurrent && 0 + 1 <= M
  {
    SplitUnique(1, 0, 1);
    SplitUnique(M, 1, 0);
    SplitUnique(0, 0, 0);
  }

  /** The counter is seen to have wrapped between two samples. */
  predicate Switched(last: Tick, now: Tick) {
    now < last
  }

  /** Two samples tell how many epochs lie between them exactly when they are less than a counter period
      apart; that there is a sample in every epoch is not enough. */
  lemma SampleExact(last: nat, now: nat)
    requires last <= now
    ensures Epoch(now) == Epoch(last) + (if Switched(Wrap(last), Wrap(now)) then 1 else 0) <==> now - last < M
  {
    Split(last);
    Split(now);
    var d := Epoch(now) - Epoch(last);
    assert d * M == Epoch(now) * M - Epoch(last) * M;
    Multiples(d);
    hide Epoch, Wrap;
  }

  lemma Multiples(d: int)
    ensures d < 0 ==> d * M <= 0 - M
    ensures d == 0 ==> d * M == 0
    ensures d == 1 ==> d * M == M
    ensures d > 1 ==> d * M >= 2 * M
  {
  }

  /** Two such samples, in epochs that follow each other. */
  lemma SampleMissed()
    ensures Epoch(2) == 0 && Epoch(M + 3) == 1 && !Switched(Wrap(2), Wrap(M + 3))
  {
    SplitUnique(2, 0, 2);
    SplitUnique(M + 3, 1, 3);
  }

  // ----- The lists of active timers -----

  function ValuesOf(list: seq<Timer>, timers: Controls): (v: seq<int>)
    ensures |v| == |list|
  {
    seq(|list|, i requires 0 <= i < |list| => if list[i] in timers then timers[list[i]].value else 0)
  }

  /** `vListInsert`. */
  function Inserted(list: seq<Timer>, timers: Controls, t: Timer): (r: seq<Timer>)
    requires t in timers
    ensures |r| == |list| + 1 && forall x :: x in r <==> x in list || x == t
  {
    var p := Place(ValuesOf(list, timers), timers[t].value);
    assert list == list[..p] + list[p..];
    list[..p] + [t] + list[p..]
  }

  /** So the timer stands behind everyone whose expiry is no later than its own, and in front of the next. */
  lemma InsertedInOrder(list: seq<Timer>, timers: Controls, t: Timer) returns (p: nat)
    requires t in timers && forall x :: x in list ==> x in timers
    ensures p <= |list| && Inserted(list, timers, t) == list[..p] + [t] + list[p..]
    ensures forall i :: 0 <= i < p ==> timers[list[i]].value <= timers[t].value
    ensures p < |list| ==> timers[t].value < timers[list[p]].value
  {
    var v := ValuesOf(list, timers);
    p := Place(v, timers[t].value);
    assert forall i :: 0 <= i < |list| ==> list[i] in timers && v[i] == timers[list[i]].value;
  }

  ghost predicate ListOK(list: seq<Timer>, timers: Controls) {
    Distinct(list) && (forall t :: t in list ==> t in timers) && Sorted(ValuesOf(list, timers))
  }

  /** The timers on both lists: each is on one of them, in expiry order. */
  ghost predicate ListsOK(timers: Controls, current: seq<Timer>, overflow: seq<Timer>) {
    && ListOK(current, timers) && ListOK(overflow, timers) && (forall t :: t in current ==> t !in overflow)
    && (forall t :: t in timers ==> 0 < timers[t].period)
  }

  lemma InsertOK(list: seq<Timer>, timers: Controls, t: Timer)
    requires ListOK(list, timers) && t in timers && t !in list
    ensures ListOK(Inserted(list, timers, t), timers)
  {
    var v := ValuesOf(list, timers);
    var p := Place(v, timers[t].value);
    InsertKeepsSorted(v, timers[t].value);
    InsertDistinct(list, p, t);
    ValuesInserted(list, timers, p, t);
    hide Distinct, Sorted, ValuesOf, Place;
    assert Inserted(list, timers, t) == list[..p] + [t] + list[p..];
  }

  lemma ValuesInserted(list: seq<Timer>, timers: Controls, p: nat, t: Timer)
    requires p <= |list| && t in timers
    ensures ValuesOf(list[..p] + [t] + list[p..], timers)
         == ValuesOf(list, timers)[..p] + [timers[t].value as int] + ValuesOf(list, timers)[p..]
  {
  }

  lemma HeadOffOK(list: seq<Timer>, timers: Controls)
    requires ListOK(list, timers) && list != []
    ensures ListOK(list[1..], timers) && list[0] !in list[1..]
    ensures forall x :: x in list <==> x == list[0] || x in list[1..]
  {
    assert ValuesOf(list[1..], timers) == ValuesOf(list, timers)[1..];
    assert list == [list[0]] + list[1..];
  }

  lemma {:induction false} WithoutOK(list: seq<Timer>, timers: Controls, t: Timer)
    requires ListOK(list, timers) && t in list
    ensures ListOK(Without(list, t), timers)
    ensures forall x :: x in Without(list, t) <==> x in list && x != t
  {
    HeadOffOK(list, timers);
    if list[0] != t {
      var rest := Without(list[1..], t);
      WithoutOK(list[1..], timers, t);
      var r := [list[0]] + rest;
      assert Without(list, t) == r;
      assert ValuesOf(r, timers) == [ValuesOf(list, timers)[0]] + ValuesOf(rest, timers);
      SmallestFirst(list, rest, timers);
    }
  }

  lemma SmallestFirst(list: seq<Timer>, rest: seq<Timer>, timers: Controls)
    requires ListOK(list, timers) && list != [] && forall x :: x in rest ==> x in list
    ensures forall i :: 0 <= i < |rest| ==> ValuesOf(list, timers)[0] <= ValuesOf(rest, timers)[i]
  {
    forall i | 0 <= i < |rest|
      ensures ValuesOf(list, timers)[0] <= ValuesOf(rest, timers)[i]
    {
      assert rest[i] in rest;
      var j :| 0 <= j < |list| && list[j] == rest[i];
      assert ValuesOf(list, timers)[j] == ValuesOf(rest, timers)[i];
    }
  }

  /** A control block changed while its timer is on neither list. */
  lemma AsideOK(list: seq<Timer>, timers: Controls, t: Timer, c: Control)
    requires ListOK(list, timers) && t !in list
    ensures ListOK(list, timers[t := c])
  {
    assert ValuesOf(list, timers[t := c]) == ValuesOf(list, timers);
  }

  lemma ForgottenOK(list: seq<Timer>, timers: Controls, t: Timer)
    requires ListOK(list, timers) && t !in list
    ensures ListOK(list, timers - {t})
  {
    assert ValuesOf(list, timers - {t}) == ValuesOf(list, timers);
  }

  // ----- What a running timer has to show for itself -----

  /** Since it was started: when that was, the last expiry handled, and every expiry its callback was called
      for. */
  datatype Life = Life(start: nat, last: nat, fired: seq<nat>)

  /** The callback was called for start + p, start + 2p and so on, and for nothing else. */
  ghost predicate OnBeat(l: Life, period: nat) {
    && l.last == l.start + |l.fired| * period
    && forall i :: 0 <= i < |l.fired| ==> l.fired[i] == l.start + (i + 1) * period
  }

  function Fired(l: Life, period: nat): Life {
    Life(l.start, l.last + period, l.fired + [l.last + period])
  }

  lemma StillOnBeat(l: Life, period: nat)
    requires OnBeat(l, period)
    ensures OnBeat(Fired(l, period), period)
  {
    assert (|l.fired| + 1) * period == |l.fired| * period + period;
  }

  /** The messages in the queue that concern one timer. */
  ghost function Concerning(queue: seq<Message>, t: Timer): seq<Message> {
    if queue == [] then []
    else
      var rest := Concerning(queue[..|queue| - 1], t);
      if queue[|queue| - 1].timer == t then rest + [queue[|queue| - 1]] else rest
  }

  lemma ConcerningMore(queue: seq<Message>, m: Message, t: Timer)
    ensures Concerning(queue + [m], t) == if m.timer == t then Concerning(queue, t) + [m] else Concerning(queue, t)
  {
    assert (queue + [m])[..|queue|] == queue;
  }

  lemma {:induction false} ConcerningHead(queue: seq<Message>, t: Timer)
    requires queue != []
    ensures Concerning(queue, t) == if queue[0].timer == t then [queue[0]] + Concerning(queue[1..], t)
              else Concerning(queue[1..], t)
  {
    if |queue| > 1 {
      var front := queue[..|queue| - 1];
      ConcerningHead(front, t);
      assert front[1..] == queue[1..][..|queue| - 2] && queue[1..][|queue| - 2] == queue[|queue| - 1];
    } else {
      assert queue[1..] == [] && queue[..0] == [];
    }
  }

  ghost function Expiry(timers: Controls, current: seq<Timer>, epochStart: nat, t: Timer): nat
    requires t in timers
  {
    epochStart + (if t in current then 0 else M) + timers[t].value
  }

  /** A timer that runs undisturbed leaves exactly one trace: its place on a list, at the next beat, or a
      command to restart it from the last one. A one-shot timer that has fired leaves none. */
  ghost predicate Traced(timers: Controls, current: seq<Timer>, overflow: seq<Timer>, queue: seq<Message>,
                         epochStart: nat, l: Life, t: Timer) {
    && t in timers && OnBeat(l, timers[t].period) && (timers[t].autoReload || |l.fired| <= 1)
    && if !timers[t].autoReload && l.fired != [] then
         t !in current && t !in overflow && Concerning(queue, t) == []
       else if t in current || t in overflow then
         Concerning(queue, t) == [] && Expiry(timers, current, epochStart, t) == l.last + timers[t].period
       else
         Concerning(queue, t) == [Message(Start, t, Wrap(l.last), l.last)]
  }

  /** No expiry is lost and none is counted twice: when the next expiry on the list of a running timer lies
      ahead, its callback has been called once for each period that has passed since it was started. */
  lemma CallbacksMatchPeriods(timers: Controls, current: seq<Timer>, overflow: seq<Timer>, queue: seq<Message>,
                              epochStart: nat, l: Life, t: Timer, now: nat)
    requires Traced(timers, current, overflow, queue, epochStart, l, t) && (t in current || t in overflow)
    requires timers[t].autoReload && l.last <= now < Expiry(timers, current, epochStart, t)
    ensures var p := timers[t].period;
            && l.start + |l.fired| * p <= now < l.start + (|l.fired| + 1) * p
            && forall k :: 0 <= k < |l.fired| ==> l.fired[k] == l.start + (k + 1) * p
  {
    var p := timers[t].period;
    assert (|l.fired| + 1) * p == |l.fired| * p + p;
  }

  /** The queue with one more message, seen by the timers it does not concern. */
  lemma QueuedElsewhere(queue: seq<Message>, m: Message)
    ensures forall x :: x != m.timer ==> Concerning(queue + [m], x) == Concerning(queue, x)
    ensures Concerning(queue + [m], m.timer) == Concerning(queue, m.timer) + [m]
  {
    forall x
      ensures Concerning(queue + [m], x) == if m.timer == x then Concerning(queue, x) + [m] else Concerning(queue, x)
    {
      ConcerningMore(queue, m, x);
    }
  }

  /** All that the timer service remembers. */
  datatype View = View(timers: Controls, current: seq<Timer>, overflow: seq<Timer>, queue: seq<Message>,
                       lives: map<Timer, Life>, epochStart: nat, sample: nat, capacity: nat)

  /** The invariant, but for the traces of the timers in `held`, which are being handled and are off the lists. */
  ghost predicate Kept(v: View, held: set<Timer>) {
    ListsOK(v.timers, v.current, v.overflow) && QueueOK(v) && HeldOK(v, held) && Accounted(v, held)
  }

  ghost predicate QueueOK(v: View) {
    && |v.queue| <= v.capacity
    && forall m :: m in v.queue ==> m.timer in v.timers && MessageOK(m)
  }

  /** A start command says when it was issued, and a new period is not zero. */
  ghost predicate MessageOK(m: Message) {
    (m.command.Start? ==> m.value == Wrap(m.sentAt)) && (m.command.ChangePeriod? ==> 0 < m.value)
  }

  ghost predicate HeldOK(v: View, held: set<Timer>) {
    forall t :: t in held ==> t in v.timers && t !in v.current && t !in v.overflow && (t in v.lives ==> InHand(v, t))
  }

  ghost predicate Accounted(v: View, held: set<Timer>) {
    && (forall t :: t in v.lives && t !in held ==> Shown(v, t))
    && (forall t :: t in v.lives ==> v.lives[t].last <= v.sample)
  }

  ghost predicate InHand(v: View, t: Timer)
    requires t in v.timers && t in v.lives
  {
    && Concerning(v.queue, t) == [] && OnBeat(v.lives[t], v.timers[t].period)
    && (v.timers[t].autoReload || |v.lives[t].fired| <= 1)
  }

  ghost predicate Shown(v: View, t: Timer)
    requires t in v.lives
  {
    Traced(v.timers, v.current, v.overflow, v.queue, v.epochStart, v.lives[t], t)
  }

  /** The trace of a timer is still there if nothing that it consists of has changed. */
  lemma SameShown(v: View, v': View, x: Timer)
    requires x in v.lives && x in v'.lives && v'.lives[x] == v.lives[x] && Shown(v, x)
    requires x in v.timers ==> x in v'.timers && v'.timers[x] == v.timers[x]
    requires (x in v'.current <==> x in v.current) && (x in v'.overflow <==> x in v.overflow)
    requires v'.epochStart == v.epochStart && Concerning(v'.queue, x) == Concerning(v.queue, x)
    ensures Shown(v', x)
  {
  }

  lemma AllShown(v: View, held: set<Timer>, v': View, held': set<Timer>)
    requires Accounted(v, held) && v'.epochStart == v.epochStart && v.sample <= v'.sample
    requires forall x :: x in v'.lives && x !in held' ==>
               && x in v.lives && x !in held && v'.lives[x] == v.lives[x]
               && (x in v.timers ==> x in v'.timers && v'.timers[x] == v.timers[x])
               && (x in v'.current <==> x in v.current) && (x in v'.overflow <==> x in v.overflow)
               && Concerning(v'.queue, x) == Concerning(v.queue, x)
    requires forall x :: x in v'.lives && x in held' ==> v'.lives[x].last <= v'.sample
    ensures Accounted(v', held')
  {
    hide Traced, Concerning;
    forall x | x in v'.lives && x !in held'
      ensures Shown(v', x)
    {
      hide Shown;
      SameShown(v, v', x);
    }
  }

  /** A timer that runs undisturbed still does: from the same start, and with every callback so far on record. */
  ghost predicate Runs(v: View, v': View, t: Timer) {
    && t in v.lives && t in v.timers && t in v'.lives && t in v'.timers
    && v'.lives[t].start == v.lives[t].start && v.lives[t].fired <= v'.lives[t].fired
    && v'.timers[t].period == v.timers[t].period && v'.timers[t].autoReload == v.timers[t].autoReload
  }

  /** So do all of them but those in `gone`. */
  ghost predicate Carried(v: View, v': View, gone: set<Timer>) {
    forall t :: t in v.lives && t !in gone ==> Runs(v, v', t)
  }

  lemma CarriedOn(v: View, v1: View, gone1: set<Timer>, v2: View, gone2: set<Timer>)
    requires Carried(v, v1, gone1) && Carried(v1, v2, gone2)
    ensures Carried(v, v2, gone1 + gone2)
  {
  }

  /** On no list, and the subject of no command in the queue: nothing happens to the timer until it is commanded. */
  ghost predicate Idle(v: View, t: Timer) {
    t !in v.current && t !in v.overflow && Concerning(v.queue, t) == []
  }

  /** Of the timers that were idle only those in `some` may have been stirred. */
  ghost predicate LeavesIdle(v: View, v': View, some: set<Timer>) {
    forall x :: Idle(v, x) && x !in some ==> Idle(v', x)
  }

  ghost predicate AllIdle(v: View, some: set<Timer>) {
    forall x :: x in some ==> Idle(v, x)
  }

  lemma IdleOn(v: View, a: set<Timer>, v1: View, b: set<Timer>, v2: View, some: set<Timer>)
    requires LeavesIdle(v, v1, a) && LeavesIdle(v1, v2, b) && a <= some && b <= some
    ensures LeavesIdle(v, v2, some)
  {
    hide Idle;
  }

  /** A timer that was not idle is not stirred. */
  lemma IdleBut(v: View, v': View, t: Timer)
    requires LeavesIdle(v, v', {t}) && (t in v.current || t in v.overflow || Concerning(v.queue, t) != [])
    ensures LeavesIdle(v, v', {})
  {
    hide Concerning;
  }

  /** The timers on the lists are no more than before, and the queue is the same. */
  lemma FewerListed(v: View, v': View, some: set<Timer>)
    requires v'.queue == v.queue
    requires forall x :: x in v'.current || x in v'.overflow ==> x in v.current || x in v.overflow
    ensures LeavesIdle(v, v', some)
  {
    hide Concerning;
  }

  lemma StillIdle(v: View, v': View, some: set<Timer>, stirred: set<Timer>)
    requires AllIdle(v, some) && LeavesIdle(v, v', stirred)
    ensures AllIdle(v', some - stirred)
  {
    hide Idle;
  }

  lemma NoneIdle(v: View, lives: map<Timer, Life>)
    ensures AllIdle(v, {} * lives.Keys)
  {
  }

  /** A timer in hand, left there. */
  lemma LeftIdle(v: View, t: Timer)
    requires t !in v.current && t !in v.overflow && Concerning(v.queue, t) == []
    ensures Idle(v, t)
  {
  }

  lemma OneIdle(v: View, t: Timer, lives: map<Timer, Life>, gone: set<Timer>)
    requires gone <= {t} && (gone != {} && t in lives ==> Idle(v, t))
    ensures AllIdle(v, gone * lives.Keys)
  {
  }

  /** After one command: the timers whose restarts the switch of lists has lost, and the one the command is about. */
  lemma LostIdle(v0: View, v: View, v': View, t: Timer, full: set<Timer>, lost: set<Timer>, late: bool)
    requires AllIdle(v, full * v0.lives.Keys) && LeavesIdle(v, v', {t}) && t !in full && lost <= {t}
    requires lost != {} && t in v0.lives && !late ==> Idle(v', t)
    ensures AllIdle(v', (full + lost) * v0.lives.Keys - if late then {t} else {})
  {
    hide Idle;
  }

  lemma LivesControlled(v: View, held: set<Timer>)
    requires Kept(v, held)
    ensures forall t :: t in v.lives ==> t in v.timers
  {
    assert forall t :: t in v.lives && t !in held ==> Shown(v, t);
  }

  /** With the same lives, but for those in `gone`, and control blocks changed in item values only. */
  lemma SameLivesCarried(v: View, held: set<Timer>, v': View, gone: set<Timer>)
    requires Kept(v, held) && SameTimers(v.timers, v'.timers)
    requires forall t :: t in v.lives && t !in gone ==> t in v'.lives && v'.lives[t] == v.lives[t]
    ensures Carried(v, v', gone)
  {
    LivesControlled(v, held);
  }

  /** The same, seen from other places on the lists. */
  lemma CarriedSame(v0: View, v: View, v': View, gone: set<Timer>)
    requires Carried(v0, v, gone) && v'.timers == v.timers && v'.lives == v.lives
    ensures Carried(v0, v', gone)
  {
  }

  /** One callback for one timer, which keeps its beat or is in `gone`. */
  lemma ExpiredCarried(v: View, held: set<Timer>, t: Timer, v': View, gone: set<Timer>)
    requires Kept(v, held) && t in v.timers && SameTimers(v.timers, v'.timers)
    requires v'.lives == (if t in v.lives then v.lives[t := Fired(v.lives[t], v.timers[t].period)] else v.lives) - gone
    ensures Carried(v, v', gone)
  {
    LivesControlled(v, held);
  }

  /** What a command does to the timer it is about leaves the others alone. */
  lemma OthersCarried(v: View, held: set<Timer>, t: Timer, v': View, gone: set<Timer>)
    requires Kept(v, held) && t in v'.timers && v'.timers == v.timers[t := v'.timers[t]]
    requires forall x :: x in v.lives && x != t ==> x in v'.lives && v'.lives[x] == v.lives[x]
    requires t in v.lives && t !in gone ==> Runs(v, v', t)
    ensures Carried(v, v', gone)
  {
    LivesControlled(v, held);
  }

  /** A timer nobody keeps account of is forgotten. */
  lemma ForgetCarried(v: View, held: set<Timer>, t: Timer)
    requires Kept(v, held) && t !in v.lives
    ensures Carried(v, v.(timers := v.timers - {t}), {})
  {
    LivesControlled(v, held);
  }

  /** The timer at the head of the current list is taken off it. */
  lemma TakeHead(v: View, held: set<Timer>)
    requires Kept(v, held) && v.current != []
    ensures var t := v.current[0];
            && t in v.timers && 0 < v.timers[t].period && t !in held && Kept(v.(current := v.current[1..]), held + {t})
            && (t in v.lives ==> v.lives[t].last + v.timers[t].period == v.epochStart + v.timers[t].value)
            && (t in v.lives ==> Concerning(v.queue, t) == [] && (v.timers[t].autoReload || v.lives[t].fired == []))
            && t !in v.current[1..] && t !in v.overflow && (forall x :: x in v.current[1..] ==> x in v.current)
  {
    var t, v' := v.current[0], v.(current := v.current[1..]);
    HeadOffOK(v.current, v.timers);
    assert t in v.lives ==> Shown(v, t);
    hide Concerning, OnBeat, ListOK;
    AllShown(v, held, v', held + {t});
  }

  /** The callback of a timer in hand is called for its next expiry. */
  lemma FireInHand(v: View, held: set<Timer>, t: Timer)
    requires Kept(v, held) && t in held && t in v.lives && v.lives[t].last + v.timers[t].period <= v.sample
    requires v.timers[t].autoReload || v.lives[t].fired == []
    ensures Kept(v.(lives := v.lives[t := Fired(v.lives[t], v.timers[t].period)]), held)
  {
    StillOnBeat(v.lives[t], v.timers[t].period);
    hide ListsOK, OnBeat, Concerning;
    AllShown(v, held, v.(lives := v.lives[t := Fired(v.lives[t], v.timers[t].period)]), held);
  }

  /** The restart of a timer sent to the queue; if the queue is full it is lost, and the timer's beat with it. */
  ghost function Requeued(v: View, m: Message): View {
    if |v.queue| < v.capacity then v.(queue := v.queue + [m]) else v.(lives := v.lives - {m.timer})
  }

  /** A timer in hand is left for the next start command to deal with. */
  lemma SettleQueued(v: View, held: set<Timer>, t: Timer, command: nat)
    requires Kept(v, held) && t in held
    requires t in v.lives ==> v.lives[t].last == command && (v.timers[t].autoReload || v.lives[t].fired == [])
    ensures Kept(Requeued(v, Message(Start, t, Wrap(command), command)), held - {t})
  {
    var m := Message(Start, t, Wrap(command), command);
    if |v.queue| < v.capacity {
      var v' := v.(queue := v.queue + [m]);
      QueuedElsewhere(v.queue, m);
      assert t in v.lives ==> Shown(v', t);
      hide ListsOK, Traced, Concerning, InHand;
      forall x | x in v'.lives && x !in held - {t}
        ensures Shown(v', x)
      {
        if x != t {
          hide Shown;
          SameShown(v, v', x);
        }
      }
    } else {
      Dropped(v, held, t);
    }
  }

  /** A timer in hand of which nobody keeps account any more. */
  lemma Dropped(v: View, held: set<Timer>, t: Timer)
    requires Kept(v, held)
    ensures Kept(v.(lives := v.lives - {t}), held - {t}) && Kept(v.(lives := v.lives - {t}), held)
  {
    hide ListsOK, Concerning, OnBeat;
    AllShown(v, held, v.(lives := v.lives - {t}), held - {t});
    AllShown(v, held, v.(lives := v.lives - {t}), held);
  }

  /** A one-shot timer in hand has fired and is done with; so is one that nobody keeps account of. */
  lemma SettleDone(v: View, held: set<Timer>, t: Timer)
    requires Kept(v, held) && t in held && (t in v.lives ==> !v.timers[t].autoReload && v.lives[t].fired != [])
    ensures Kept(v, held - {t})
  {
    hide ListsOK, Concerning, OnBeat;
    assert t in v.lives ==> Shown(v, t);
  }

  /** A timer in hand goes on a list, at its next expiry. */
  lemma SettleListed(v: View, held: set<Timer>, t: Timer, value: Tick, onCurrent: bool)
    requires Kept(v, held) && t in held && t in v.timers
    requires t in v.lives ==>
               && v.epochStart + (if onCurrent then 0 else M) + value == v.lives[t].last + v.timers[t].period
               && (v.timers[t].autoReload || v.lives[t].fired == [])
    ensures Kept(Listed(v, t, value, onCurrent), held - {t})
  {
    hide Wrap, OnBeat, Concerning;
    var v' := Listed(v, t, value, onCurrent);
    ListedOK(v, t, value, onCurrent);
    ListedPlaces(v, t, value, onCurrent);
    hide ListsOK, Listed;
    assert t in v.lives ==> Shown(v', t);
    hide Traced;
    forall x | x in v'.lives && x !in held - {t}
      ensures Shown(v', x)
    {
      if x != t {
        hide Shown;
        SameShown(v, v', x);
      }
    }
  }

  lemma ListedPlaces(v: View, t: Timer, value: Tick, onCurrent: bool)
    requires t in v.timers && t !in v.current && t !in v.overflow
    ensures var v' := Listed(v, t, value, onCurrent);
            && v' == v.(timers := v'.timers, current := v'.current, overflow := v'.overflow)
            && v'.timers == v.timers[t := v.timers[t].(value := value)]
            && (t in v'.current <==> onCurrent) && (t in v'.overflow <==> !onCurrent)
            && forall x :: x != t ==> (x in v'.current <==> x in v.current) && (x in v'.overflow <==> x in v.overflow)
  {
  }

  lemma ListedOK(v: View, t: Timer, value: Tick, onCurrent: bool)
    requires ListsOK(v.timers, v.current, v.overflow) && t in v.timers && t !in v.current && t !in v.overflow
    ensures var v' := Listed(v, t, value, onCurrent); ListsOK(v'.timers, v'.current, v'.overflow)
  {
    var timers' := v.timers[t := v.timers[t].(value := value)];
    AsideOK(v.current, v.timers, t, timers'[t]);
    AsideOK(v.overflow, v.timers, t, timers'[t]);
    InsertOK(v.current, timers', t);
    InsertOK(v.overflow, timers', t);
    hide ListOK;
  }

  function Listed(v: View, t: Timer, value: Tick, onCurrent: bool): View
    requires t in v.timers
  {
    var timers' := v.timers[t := v.timers[t].(value := value)];
    v.(timers := timers', current := if onCurrent then Inserted(v.current, timers', t) else v.current,
       overflow := if onCurrent then v.overflow else Inserted(v.overflow, timers', t))
  }

  /** A timer in hand, commanded at `command` and inserted at the time of the last sample: what is left of
      the command is a place on the right list, or a start command if the timer has expired already. */
  lemma InsertInHand(v: View, held: set<Timer>, t: Timer, command: nat)
    requires Kept(v, held) && t in held && t in v.timers && 0 < v.timers[t].period
         && v.epochStart == Epoch(v.sample) * M
    requires command <= v.sample < command + M
    requires t in v.lives ==> v.lives[t].last == command && (v.timers[t].autoReload || v.lives[t].fired == [])
    ensures var p := v.timers[t].period;
            var placement := Placed(Wrap(command + p), Wrap(v.sample), Wrap(command), p);
            && Wrap(command + p) == Plus(Wrap(command), p)
            && (placement == ProcessNow <==> command + p <= v.sample)
            && (placement != ProcessNow ==> Kept(Listed(v, t, Wrap(command + p), placement == OnCurrent), held - {t}))
  {
    hide Kept, Placed;
    var p := v.timers[t].period;
    ExpiryReadOff(command, p, v.sample, v.epochStart);
    var placement := Placed(Wrap(command + p), Wrap(v.sample), Wrap(command), p);
    if placement != ProcessNow {
      SettleListed(v, held, t, Wrap(command + p), placement == OnCurrent);
    }
  }

  /** The list a timer is put on and the value of its item together say when it expires. */
  lemma ExpiryReadOff(command: nat, p: Tick, now: nat, epochStart: nat)
    requires command <= now < command + M && 0 < p && epochStart == Epoch(now) * M
    ensures Wrap(command + p) == Plus(Wrap(command), p)
    ensures var placement := Placed(Wrap(command + p), Wrap(now), Wrap(command), p);
            && (placement == ProcessNow <==> command + p <= now)
            && (placement != ProcessNow ==>
                 epochStart + (if placement == OnCurrent then 0 else M) + Wrap(command + p) == command + p)
  {
    PlacementExact(command, p, now);
    Advance(command, p);
    hide Placed;
    Split(command + p);
    assert (Epoch(now) + 1) * M == epochStart + M;
  }

  /** The value of a list item means nothing while it is on no list. */
  lemma ValueAside(v: View, held: set<Timer>, t: Timer, value: Tick)
    requires Kept(v, held) && t in held && t in v.timers
    ensures Kept(v.(timers := v.timers[t := v.timers[t].(value := value)]), held)
  {
    var v' := v.(timers := v.timers[t := v.timers[t].(value := value)]);
    AsideOK(v.current, v.timers, t, v'.timers[t]);
    AsideOK(v.overflow, v.timers, t, v'.timers[t]);
    hide ListOK, Concerning, OnBeat;
    AllShown(v, held, v', held);
  }

  /** A timer in hand that has just expired, inserted again: on a list at its next expiry or, if that has
      passed as well, with a start command sent to the queue. */
  lemma ReloadInHand(v: View, held: set<Timer>, t: Timer, expired: nat)
    requires Kept(v, held) && t in held && t in v.timers && 0 < v.timers[t].period
         && v.epochStart == Epoch(v.sample) * M
    requires expired <= v.sample < expired + M
    requires t in v.lives ==> v.lives[t].last == expired && (v.timers[t].autoReload || v.lives[t].fired == [])
    ensures var value := Plus(Wrap(expired), v.timers[t].period);
            var placement := Placed(value, Wrap(v.sample), Wrap(expired), v.timers[t].period);
            && (placement == ProcessNow <==> expired + v.timers[t].period <= v.sample)
            && if placement == ProcessNow then
                 Kept(Requeued(v.(timers := v.timers[t := v.timers[t].(value := value)]),
                     Message(Start, t, Wrap(expired), expired)), held - {t})
               else
                 Kept(Listed(v, t, value, placement == OnCurrent), held - {t})
  {
    hide Kept, Placed, Requeued;
    InsertInHand(v, held, t, expired);
    var value := Plus(Wrap(expired), v.timers[t].period);
    ValueAside(v, held, t, value);
    SettleQueued(v.(timers := v.timers[t := v.timers[t].(value := value)]), held, t, expired);
  }

  // ----- Start commands -----

  /** Whose beat is kept account of once a start command issued at `sentAt` is handled: the timer's from then on, if
      nothing more about it is in the queue and it is not too late to tell when it expires. */
  ghost function Tracked(v: View, t: Timer, sentAt: nat): map<Timer, Life> {
    if t in v.lives && sentAt + M <= v.sample then v.lives - {t}
    else if t !in v.lives && Concerning(v.queue, t) == []
        && sentAt <= v.sample < sentAt + M then v.lives[t := Life(sentAt, sentAt, [])]
    else v.lives
  }

  lemma TrackStart(v: View, t: Timer, sentAt: nat)
    requires Kept(v, {t}) && t in v.timers
    requires t in v.lives ==>
              v.lives[t].last == sentAt <= v.sample && (v.timers[t].autoReload || v.lives[t].fired == [])
    ensures Kept(v.(lives := Tracked(v, t, sentAt)), {t})
    ensures t in Tracked(v, t, sentAt) ==>
              && Tracked(v, t, sentAt)[t].last == sentAt <= v.sample < sentAt + M
              && (v.timers[t].autoReload || Tracked(v, t, sentAt)[t].fired == [])
  {
    hide Kept, Concerning;
    if t in v.lives && sentAt + M <= v.sample {
      Dropped(v, {t}, t);
    } else if t !in v.lives && Concerning(v.queue, t) == [] && sentAt <= v.sample < sentAt + M {
      Adopt(v, t, sentAt);
    }
  }

  /** Where a start command leaves its timer: on the list that goes with its expiry, or in hand if it is to be processed
      at once. */
  lemma PlaceStart(v: View, t: Timer, sentAt: nat)
    requires Kept(v, {t}) && t in v.timers && 0 < v.timers[t].period && v.epochStart == Epoch(v.sample) * M
    requires t in v.lives ==>
              v.lives[t].last == sentAt <= v.sample < sentAt + M && (v.timers[t].autoReload || v.lives[t].fired == [])
    ensures var p, value := v.timers[t].period, Plus(Wrap(sentAt), v.timers[t].period);
            var placement := Placed(value, Wrap(v.sample), Wrap(sentAt), p);
            && (sentAt <= v.sample < sentAt + M ==> (placement == ProcessNow <==> sentAt + p <= v.sample))
            && if placement == ProcessNow then
                 Kept(v.(timers := v.timers[t := v.timers[t].(value := value)]), {t})
               else
                 && Kept(Listed(v, t, value, placement == OnCurrent), {})
                 && (sentAt <= v.sample < sentAt + M ==>
                      Expires(Listed(v, t, value, placement == OnCurrent), t, sentAt + p))
  {
    hide Kept, Placed, Wrap, Epoch, Plus;
    var p, value := v.timers[t].period, Plus(Wrap(sentAt), v.timers[t].period);
    var placement := Placed(value, Wrap(v.sample), Wrap(sentAt), p);
    assert {t} - {t} == {};
    OffLists(v, {t}, t);
    ListedPlaces(v, t, value, placement == OnCurrent);
    hide Listed;
    ValueAside(v, {t}, t, value);
    if sentAt <= v.sample < sentAt + M {
      ExpiryReadOff(sentAt, p, v.sample, v.epochStart);
    }
    if placement != ProcessNow {
      SettleListed(v, {t}, t, value, placement == OnCurrent);
    }
  }

  // ----- Totals over the timers of a list -----

  ghost function Total(list: seq<Timer>, weight: Timer -> nat): nat {
    if list == [] then 0 else weight(list[0]) + Total(list[1..], weight)
  }

  lemma {:induction false} TotalSplit(a: seq<Timer>, b: seq<Timer>, weight: Timer -> nat)
    ensures Total(a + b, weight) == Total(a, weight) + Total(b, weight)
  {
    if a == [] {
      assert a + b == b;
    } else {
      assert (a + b)[1..] == a[1..] + b;
      TotalSplit(a[1..], b, weight);
    }
  }

  lemma TotalInserted(list: seq<Timer>, timers: Controls, t: Timer, weight: Timer -> nat)
    requires t in timers
    ensures Total(Inserted(list, timers, t), weight) == Total(list, weight) + weight(t)
  {
    var p := Place(ValuesOf(list, timers), timers[t].value);
    assert list == list[..p] + list[p..];
    TotalSplit(list[..p], list[p..], weight);
    TotalSplit(list[..p] + [t], list[p..], weight);
    TotalSplit(list[..p], [t], weight);
  }

  lemma {:induction false} TotalSame(list: seq<Timer>, weight: Timer -> nat, weight': Timer -> nat)
    requires forall t :: t in list ==> weight(t) == weight'(t)
    ensures Total(list, weight) == Total(list, weight')
  {
    if list != [] {
      TotalSame(list[1..], weight, weight');
    }
  }

  /** The room before a timer's item value wraps. */
  ghost function Slack(timers: Controls): Timer -> nat {
    t => if t in timers then M - timers[t].value else 0
  }

  /** One for each timer that reloads. */
  ghost function Reloads(timers: Controls): Timer -> nat {
    t => if t in timers && timers[t].autoReload then 1 else 0
  }

  /** A timer that was off a list is on it again, at a new item value. */
  lemma TotalsReinserted(list: seq<Timer>, timers: Controls, t: Timer, value: Tick)
    requires t in timers && t !in list
    ensures var timers' := timers[t := timers[t].(value := value)];
            && Total(Inserted(list, timers', t), Slack(timers')) == Total(list, Slack(timers)) + M - value
            && Total(Inserted(list, timers', t), Reloads(timers')) == Total(list, Reloads(timers))
                 + if timers[t].autoReload then 1 else 0
  {
    var timers' := timers[t := timers[t].(value := value)];
    TotalInserted(list, timers', t, Slack(timers'));
    TotalInserted(list, timers', t, Reloads(timers'));
    TotalSame(list, Slack(timers), Slack(timers'));
    TotalSame(list, Reloads(timers), Reloads(timers'));
  }

  /** Switching the lists carries every expiry over to the new epoch. */
  lemma SwitchKept(v: View, held: set<Timer>)
    requires Kept(v, held) && v.current == []
    ensures Kept(v.(current := v.overflow, overflow := [], epochStart := v.epochStart + M), held)
  {
    hide ListOK, Concerning, OnBeat;
    var v' := v.(current := v.overflow, overflow := [], epochStart := v.epochStart + M);
    EmptyOK(v.timers);
    forall x | x in v'.lives && x !in held
      ensures Shown(v', x)
    {
      assert Shown(v, x);
    }
  }

  lemma EmptyOK(timers: Controls)
    ensures ListOK([], timers)
  {
  }

  /** No message about the timers in `held` has been added. */
  ghost predicate Untouched(queue: seq<Message>, queue': seq<Message>, held: set<Timer>) {
    forall t :: t in held ==> Concerning(queue', t) == Concerning(queue, t)
  }

  /** Control blocks that differ in the values of list items only. */
  ghost predicate SameTimers(timers: Controls, timers': Controls) {
    timers'.Keys == timers.Keys && forall t :: t in timers ==> timers'[t] == timers[t].(value := timers'[t].value)
  }

  /** The message at the head of the queue is received and its timer taken off whatever list it is on. The
      only message about a timer that runs undisturbed is the restart it left itself. */
  lemma TakeMessage(v: View)
    requires Kept(v, {}) && v.queue != []
    ensures var t := v.queue[0].timer;
            && t in v.timers && 0 < v.timers[t].period && Kept(Received(v), {t}) && MessageOK(v.queue[0])
            && (t in v.lives ==>
                 v.queue[0] == Message(Start, t, Wrap(v.lives[t].last), v.lives[t].last) && v.lives[t].last <= v.sample)
            && (t in v.lives ==>
                 Concerning(v.queue[1..], t) == [] && (v.timers[t].autoReload || v.lives[t].fired == []))
            && (forall x :: x in Received(v).current ==> x in v.current) && LeavesIdle(v, Received(v), {})
  {
    var t, v' := v.queue[0].timer, Received(v);
    forall x
      ensures Concerning(v.queue, x) == if t == x then [v.queue[0]] + Concerning(v.queue[1..], x)
                else Concerning(v.queue[1..], x)
    {
      ConcerningHead(v.queue, x);
    }
    assert v.queue[0] in v.queue;
    LeftMessage(v);
    ReceivedLists(v);
    hide ListOK, Concerning, OnBeat;
    assert QueueOK(v') && HeldOK(v', {t});
    hide Received;
    AllShown(v, {}, v', {t});
  }

  lemma ReceivedLists(v: View)
    requires ListsOK(v.timers, v.current, v.overflow) && v.queue != []
    ensures var t, v' := v.queue[0].timer, Received(v);
            && ListsOK(v.timers, v'.current, v'.overflow) && t !in v'.current && t !in v'.overflow
            && v' == v.(queue := v.queue[1..], current := v'.current, overflow := v'.overflow)
            && forall x :: x != t ==> (x in v'.current <==> x in v.current) && (x in v'.overflow <==> x in v.overflow)
  {
    var t := v.queue[0].timer;
    if t in v.current {
      WithoutOK(v.current, v.timers, t);
    }
    if t in v.overflow {
      WithoutOK(v.overflow, v.timers, t);
    }
    hide ListOK;
  }

  lemma LeftMessage(v: View)
    requires Kept(v, {}) && v.queue != []
    ensures var t := v.queue[0].timer;
            t in v.lives ==>
              && v.queue[0] == Message(Start, t, Wrap(v.lives[t].last), v.lives[t].last)
              && Concerning(v.queue[1..], t) == []
              && OnBeat(v.lives[t], v.timers[t].period) && (v.timers[t].autoReload || v.lives[t].fired == [])
  {
    var t := v.queue[0].timer;
    ConcerningHead(v.queue, t);
    hide OnBeat, Concerning, ListsOK;
    if t in v.lives {
      assert Shown(v, t);
      assert Concerning(v.queue, t)[0] == v.queue[0] && Concerning(v.queue, t)[1..] == Concerning(v.queue[1..], t);
    }
  }

  function Received(v: View): View
    requires v.queue != []
  {
    var t := v.queue[0].timer;
    v.(queue := v.queue[1..], current := if t in v.current then Without(v.current, t) else v.current,
       overflow := if t in v.overflow then Without(v.overflow, t) else v.overflow)
  }

  /** A timer about which nothing more is in the queue begins to run undisturbed. */
  lemma Adopt(v: View, t: Timer, start: nat)
    requires Kept(v, {t}) && t !in v.lives && Concerning(v.queue, t) == [] && start <= v.sample
    ensures Kept(v.(lives := v.lives[t := Life(start, start, [])]), {t})
  {
    hide ListsOK, Concerning;
    AllShown(v, {t}, v.(lives := v.lives[t := Life(start, start, [])]), {t});
  }

  lemma PeriodAside(v: View, t: Timer, period: Tick)
    requires Kept(v, {t}) && t in v.timers && t !in v.lives && 0 < period
    ensures Kept(v.(timers := v.timers[t := v.timers[t].(period := period)]), {t})
  {
    var v' := v.(timers := v.timers[t := v.timers[t].(period := period)]);
    AsideOK(v.current, v.timers, t, v'.timers[t]);
    AsideOK(v.overflow, v.timers, t, v'.timers[t]);
    hide ListOK, Concerning, OnBeat;
    AllShown(v, {t}, v', {t});
  }

  lemma Forget(v: View, t: Timer)
    requires Kept(v, {t}) && t !in v.lives && Concerning(v.queue, t) == []
    ensures Kept(v.(timers := v.timers - {t}), {})
  {
    var v' := v.(timers := v.timers - {t});
    ForgottenOK(v.current, v.timers, t);
    ForgottenOK(v.overflow, v.timers, t);
    NoneConcerning(v.queue, t);
    hide ListOK, Concerning, OnBeat;
    AllShown(v, {t}, v', {});
  }

  lemma {:induction false} NoneConcerning(queue: seq<Message>, t: Timer)
    requires Concerning(queue, t) == []
    ensures forall m :: m in queue ==> m.timer != t
  {
    if queue != [] {
      NoneConcerning(queue[..|queue| - 1], t);
      assert queue == queue[..|queue| - 1] + [queue[|queue| - 1]];
    }
  }

  /** A message from the application about a timer, which from then on no longer runs undisturbed. */
  lemma Disturb(v: View, m: Message)
    requires Kept(v, {}) && m.timer in v.timers && MessageOK(m) && |v.queue| < v.capacity
    ensures Kept(v.(queue := v.queue + [m], lives := v.lives - {m.timer}), {})
  {
    var v' := v.(queue := v.queue + [m], lives := v.lives - {m.timer});
    QueuedElsewhere(v.queue, m);
    hide ListsOK, Concerning, OnBeat;
    AllShown(v, {}, v', {});
  }

  /** Time passing disturbs nothing by itself. */
  lemma LaterKept(v: View, held: set<Timer>, now: nat)
    requires Kept(v, held) && v.sample <= now
    ensures Kept(v.(sample := now), held)
  {
    hide ListsOK, Concerning, OnBeat;
    AllShown(v, held, v.(sample := now), held);
  }

  lemma HeadTotals(list: seq<Timer>, timers: Controls)
    requires list != [] && list[0] in timers
    ensures Total(list, Slack(timers)) == M - timers[list[0]].value + Total(list[1..], Slack(timers))
    ensures Total(list, Reloads(timers)) == (if timers[list[0]].autoReload then 1 else 0)
              + Total(list[1..], Reloads(timers))
  {
  }

  /** The lives left when those in `gone` are dropped; the timers in `held` have not fired. */
  ghost predicate SameLives(v: View, v': View, held: set<Timer>, gone: set<Timer>) {
    v'.lives.Keys == v.lives.Keys - gone && forall t :: t in v'.lives && t in held ==> v'.lives[t] == v.lives[t]
  }

  /** What one trip round the loop of `prvSwitchTimerLists` does. */
  ghost predicate HeadProcessed(v: View, v': View, held: set<Timer>, gone: set<Timer>)
    requires v.current != []
  {
    && Kept(v', held) && v' == v.(timers := v'.timers, current := v'.current, queue := v'.queue, lives := v'.lives)
    && SameTimers(v.timers, v'.timers) && Untouched(v.queue, v'.queue, held)
    && |v'.queue| + |gone| + Total(v'.current, Reloads(v'.timers)) == |v.queue| + Total(v.current, Reloads(v.timers))
    && v.queue <= v'.queue && |v'.queue| <= v.capacity
    && (gone != {} ==> gone == {v.current[0]} && |v'.queue| == v.capacity)
    && (forall t :: t in v'.current ==> t in v.current) && (forall t :: t in gone ==> t !in v'.current)
    && SameLives(v, v', held, gone) && Carried(v, v', gone)
    && LeavesIdle(v, v', {}) && AllIdle(v', gone * v.lives.Keys)
  }

  /** What any number of trips do. */
  ghost predicate Switching(v0: View, v: View, held: set<Timer>, gone: set<Timer>) {
    && Kept(v, held) && v == v0.(timers := v.timers, current := v.current, queue := v.queue, lives := v.lives)
    && SameTimers(v0.timers, v.timers) && Untouched(v0.queue, v.queue, held)
    && |v.queue| + |gone| + Total(v.current, Reloads(v.timers)) == |v0.queue| + Total(v0.current, Reloads(v0.timers))
    && v0.queue <= v.queue && |v.queue| <= v.capacity && (gone != {} ==> |v.queue| == v.capacity)
    && (forall t :: t in v.current || t in gone ==> t in v0.current) && (forall t :: t in gone ==> t !in v.current)
    && SameLives(v0, v, held, gone) && Carried(v0, v, gone)
    && LeavesIdle(v0, v, {}) && AllIdle(v, gone * v0.lives.Keys)
  }

  lemma SwitchStart(v: View, held: set<Timer>)
    requires Kept(v, held)
    ensures Switching(v, v, held, {})
  {
    LivesControlled(v, held);
    NoneIdle(v, v.lives);
    FewerListed(v, v, {});
    hide Idle, AllIdle, LeavesIdle;
  }

  lemma SwitchStep(v0: View, v: View, v': View, held: set<Timer>, gone: set<Timer>, lost: set<Timer>)
    requires Switching(v0, v, held, gone) && v.current != [] && HeadProcessed(v, v', held, lost)
    ensures Switching(v0, v', held, gone + lost)
  {
    hide Kept, Carried, Total, SameTimers, Untouched, SameLives, LeavesIdle, AllIdle;
    CarriedOn(v0, v, gone, v', lost);
    SwitchTwice(v0, v, v', held, gone, lost);
    IdleOn(v0, {}, v, {}, v', {});
    StillIdle(v, v', gone * v0.lives.Keys, {});
    LivesLeft(v0, v, held, gone, lost);
    BothIdle(v', gone, lost, v0.lives, v.lives);
    assert gone !! lost;
    assert |gone + lost| == |gone| + |lost|;
  }

  lemma LivesLeft(v0: View, v: View, held: set<Timer>, gone: set<Timer>, lost: set<Timer>)
    requires SameLives(v0, v, held, gone) && gone !! lost
    ensures lost * v0.lives.Keys <= lost * v.lives.Keys
  {
  }

  lemma BothIdle(v: View, gone: set<Timer>, lost: set<Timer>, lives0: map<Timer, Life>, lives: map<Timer, Life>)
    requires AllIdle(v, gone * lives0.Keys - {}) && AllIdle(v, lost * lives.Keys)
         && lost * lives0.Keys <= lost * lives.Keys
    ensures AllIdle(v, (gone + lost) * lives0.Keys)
  {
    hide Idle;
  }

  lemma SwitchTwice(v0: View, v: View, v': View, held: set<Timer>, gone: set<Timer>, lost: set<Timer>)
    requires SameTimers(v0.timers, v.timers) && SameTimers(v.timers, v'.timers)
    requires Untouched(v0.queue, v.queue, held) && Untouched(v.queue, v'.queue, held)
    requires SameLives(v0, v, held, gone) && SameLives(v, v', held, lost)
    ensures SameTimers(v0.timers, v'.timers) && Untouched(v0.queue, v'.queue, held)
         && SameLives(v0, v', held, gone + lost)
  {
    hide Concerning;
  }

  lemma SwitchOn(v0: View, v: View, held: set<Timer>, gone: set<Timer>)
    requires Switching(v0, v, held, gone)
    ensures Kept(v, held) && v.epochStart == v0.epochStart && v.sample == v0.sample
  {
  }

  /** In the end each reload has either found room or been lost. */
  lemma SwitchEnd(v0: View, v: View, held: set<Timer>, gone: set<Timer>)
    requires Switching(v0, v, held, gone) && v.current == []
    ensures Kept(v, held) && v == v0.(timers := v.timers, current := [], queue := v.queue, lives := v.lives)
    ensures SameTimers(v0.timers, v.timers) && v0.queue <= v.queue && Untouched(v0.queue, v.queue, held)
         && Carried(v0, v, gone) && SameLives(v0, v, held, gone)
    ensures (forall t :: t in gone ==> t in v0.current) && (gone != {} ==> |v.queue| == v.capacity)
    ensures gone == {} <==> |v0.queue| + Total(v0.current, Reloads(v0.timers)) <= v.capacity
    ensures LeavesIdle(v0, v, {}) && AllIdle(v, gone * v0.lives.Keys)
  {
    hide LeavesIdle, AllIdle;
  }

  /** With the lists swapped all of that still holds. */
  lemma SwitchOver(v0: View, v: View, held: set<Timer>, gone: set<Timer>)
    requires Kept(v, held) && v.current == [] && Carried(v0, v, gone) && SameLives(v0, v, held, gone)
    requires LeavesIdle(v0, v, {}) && AllIdle(v, gone * v0.lives.Keys)
    ensures var v' := v.(current := v.overflow, overflow := [], epochStart := v.epochStart + M);
            && Kept(v', held) && Carried(v0, v', gone) && SameLives(v0, v', held, gone)
            && LeavesIdle(v0, v', {}) && AllIdle(v', gone * v0.lives.Keys)
  {
    hide Kept, Carried, LeavesIdle, AllIdle;
    var v' := v.(current := v.overflow, overflow := [], epochStart := v.epochStart + M);
    SwitchKept(v, held);
    CarriedSame(v0, v, v', gone);
    FewerListed(v, v', {});
    IdleOn(v0, {}, v, {}, v', {});
    StillIdle(v, v', gone * v0.lives.Keys, {});
    assert gone * v0.lives.Keys - {} == gone * v0.lives.Keys;
  }

  lemma HeadDone(v: View, v': View, held: set<Timer>, gone: set<Timer>)
    requires Kept(v, held) && v.current != [] && v.current[0] in v.timers && v.current[0] !in held
         && SameTimers(v.timers, v'.timers)
    requires v'.lives == (if v.current[0] in v.lives
              then v.lives[v.current[0] := Fired(v.lives[v.current[0]], v.timers[v.current[0]].period)]
                  else v.lives) - gone
    ensures SameLives(v, v', held, gone) && Carried(v, v', gone)
  {
    hide Kept, SameTimers, Fired;
    ExpiredCarried(v, held, v.current[0], v', gone);
  }

  lemma NothingChanged(timers: Controls, queue: seq<Message>, held: set<Timer>)
    ensures SameTimers(timers, timers) && Untouched(queue, queue, held)
  {
  }

  lemma TrackNow(v: View, t: Timer)
    requires t !in v.lives
    ensures Tracked(v, t, v.sample) == if Concerning(v.queue, t) == [] then v.lives[t := Life(v.sample, v.sample, [])]
              else v.lives
  {
  }

  lemma InsertedElements(list: seq<Timer>, timers: Controls, t: Timer, value: Tick)
    requires t in timers
    ensures var r := Inserted(list, timers[t := timers[t].(value := value)], t);
            forall x :: x in r <==> x in list || x == t
  {
  }

  lemma SameAside(timers: Controls, t: Timer, value: Tick)
    requires t in timers
    ensures SameTimers(timers, timers) && SameTimers(timers, timers[t := timers[t].(value := value)])
  {
  }

  /** What a command changes, but for item values, if it changes only the control block of its timer. */
  lemma SameChange(timers: Controls, timers': Controls, t: Timer)
    requires SameTimers(timers, timers') && t in timers
    ensures forall value :: SameTimers(timers, timers'[t := timers'[t].(value := value)])
    ensures forall value, period ::
              SameTimers(timers[t := timers[t].(period := period)],
                  timers'[t := timers'[t].(period := period, value := value)])
    ensures SameTimers(timers - {t}, timers' - {t})
  {
  }

  /** The timer service: the lists, the queue of commands, and the time last seen. */
  class TimerService {
    const queueLength: nat
    var timers: Controls
    var current: seq<Timer>
    var overflow: seq<Timer>
    var queue: seq<Message>
    var lastTime: Tick

    /** The moment of the last sample, the start of its epoch, and the lives of the timers that run
        undisturbed. */
    ghost var lastSample: nat
    ghost var epochStart: nat
    ghost var lives: map<Timer, Life>

    ghost function Look(): View
      reads this
    {
      View(timers, current, overflow, queue, lives, epochStart, lastSample, queueLength)
    }

    ghost predicate Valid()
      reads this
    {
      Kept(Look(), {}) && lastTime == Wrap(lastSample) && epochStart == Epoch(lastSample) * M
    }

    /** `prvInsertTimerInActiveList`. */
    method InsertTimerInActiveList(t: Timer, nextExpiryTime: Tick, timeNow: Tick, commandTime: Tick)
      returns (processTimerNow: bool)
      requires t in timers
      modifies this`timers, this`current, this`overflow
      ensures var placement := Placed(nextExpiryTime, timeNow, commandTime, old(timers)[t].period);
              && processTimerNow == (placement == ProcessNow)
              && timers == old(timers)[t := old(timers)[t].(value := nextExpiryTime)]
              && Look() == if placement == ProcessNow
                   then old(Look()).(timers := old(timers)[t := old(timers)[t].(value := nextExpiryTime)])
                           else Listed(old(Look()), t, nextExpiryTime, placement == OnCurrent)
      ensures LeavesIdle(old(Look()), Look(), {t})
    {
      hide Concerning, Minus;
      timers := timers[t := timers[t].(value := nextExpiryTime)];
      processTimerNow := false;
      if nextExpiryTime <= timeNow {
        if Minus(timeNow, commandTime) >= timers[t].period {
          processTimerNow := true;
        } else {
          overflow := Inserted(overflow, timers, t);
        }
      } else {
        if timeNow < commandTime && nextExpiryTime >= commandTime {
          processTimerNow := true;
        } else {
          current := Inserted(current, timers, t);
        }
      }
    }

    /** `xTimerGenericCommand`. */
    method GenericCommand(m: Message) returns (sent: bool)
      modifies this`queue
      ensures sent == (|old(queue)| < queueLength) && queue == if sent then old(queue) + [m] else old(queue)
    {
      sent := |queue| < queueLength;
      if sent {
        queue := queue + [m];
      }
    }

    /** `xTimerGenericCommand` called by the daemon to restart a timer. The source asserts that there is room. */
    method SendRestart(m: Message) returns (ghost gone: set<Timer>)
      modifies this`queue, this`lives
      ensures Look() == if |old(queue)| < queueLength then old(Look()).(queue := old(queue) + [m])
                        else old(Look()).(lives := old(lives) - {m.timer})
      ensures gone == if |old(queue)| < queueLength then {} else {m.timer}
      ensures LeavesIdle(old(Look()), Look(), {m.timer})
    {
      QueuedElsewhere(queue, m);
      var result := GenericCommand(m);
      gone := {};
      if !result {
        lives, gone := lives - {m.timer}, {m.timer};
      }
    }

    /** `prvProcessExpiredTimer`, when the timer at the head of the current list has expired: its callback is
        called, and a reloading timer is on a list again or its restart is in the queue. The restart is lost
        exactly when the next expiry has passed as well and the queue is full. */
    method ProcessExpiredTimer(nextExpireTime: Tick, timeNow: Tick) returns (ghost t: Timer, ghost gone: set<Timer>)
      requires Valid() && timeNow == lastTime && current != []
      requires current[0] in timers && nextExpireTime == timers[current[0]].value <= timeNow
      modifies this`timers, this`current, this`overflow, this`queue, this`lives
      ensures Valid() && t == old(current)[0] && t in old(timers)
      ensures gone == if old(timers)[t].autoReload && epochStart + nextExpireTime + old(timers)[t].period <= lastSample
                  && |old(queue)| == queueLength
                      then {t} else {}
      ensures old(queue) <= queue && |queue| <= queueLength && SameTimers(old(timers), timers)
      ensures lives == (if t in old(lives) then old(lives)[t := Fired(old(lives)[t], old(timers)[t].period)]
                else old(lives)) - gone
      ensures t in old(lives) ==>
                old(lives)[t].last + old(timers)[t].period == epochStart + nextExpireTime <= lastSample
      ensures Carried(old(Look()), Look(), gone)
      ensures LeavesIdle(old(Look()), Look(), {}) && AllIdle(Look(), gone * old(lives).Keys)
    {
      hide Kept, Carried, Listed, Placed, SameTimers, Concerning, Idle, LeavesIdle, AllIdle;
      t, gone := current[0], {};
      ghost var v0 := Look();
      var timer := current[0];
      ghost var expired := epochStart + nextExpireTime;
      Split(lastSample);
      SplitUnique(expired, Epoch(lastSample), nextExpireTime);
      TakeHead(Look(), {});
      RoomOf(Look(), {});
      SameAside(timers, t, Plus(nextExpireTime, timers[t].period));
      assert {} + {t} == {t} && {t} - {t} == {};
      current := current[1..];
      if t in lives {
        FireInHand(Look(), {t}, t);
        lives := lives[t := Fired(lives[t], timers[t].period)];
      }
      ghost var v1 := Look();
      FewerListed(v0, v1, {t});
      if timers[timer].autoReload {
        ReloadInHand(Look(), {t}, t, expired);
        var processNow := InsertTimerInActiveList(timer, Plus(nextExpireTime, timers[timer].period), timeNow,
            nextExpireTime);
        ghost var v2 := Look();
        IdleOn(v0, {t}, v1, {t}, v2, {t});
        if processNow {
          gone := SendRestart(Message(Start, timer, nextExpireTime, expired));
          IdleOn(v0, {t}, v2, {t}, Look(), {t});
          if gone != {} && t in v0.lives {
            LeftIdle(Look(), t);
          }
        }
      } else {
        SettleDone(Look(), {t}, t);
      }
      OneIdle(Look(), t, v0.lives, gone);
      IdleBut(v0, Look(), t);
      ExpiredCarried(old(Look()), {}, t, Look(), gone);
    }

    /** `prvSwitchTimerLists`. Timers still on the current list have expired: each is processed, and one that
        reloads goes round again for as long as it expires in the old epoch. The value of the timer inserted
        again is larger each time, which is why the loop ends. Each timer that reloads sends one restart in the
        end, and none of them is lost exactly when the queue has room for all. */
    method SwitchTimerLists(ghost held: set<Timer>) returns (ghost gone: set<Timer>)
      requires Kept(Look(), held) && epochStart + M <= lastSample && Wrap(epochStart) == 0
      modifies this`timers, this`current, this`overflow, this`queue, this`epochStart, this`lives
      ensures Kept(Look(), held) && epochStart == old(epochStart) + M
      ensures current == old(overflow) && overflow == [] && SameTimers(old(timers), timers) && old(queue) <= queue
           && Untouched(old(queue), queue, held)
      ensures forall t :: t in gone ==> t in old(current)
      ensures gone == {} <==> |old(queue)| + Total(old(current), Reloads(old(timers))) <= queueLength
      ensures gone != {} ==> |queue| == queueLength
      ensures SameLives(old(Look()), Look(), held, gone) && Carried(old(Look()), Look(), gone)
      ensures LeavesIdle(old(Look()), Look(), {}) && AllIdle(Look(), gone * old(lives).Keys)
    {
      hide Kept, Carried, Switching, HeadProcessed, LeavesIdle, AllIdle, SameLives;
      gone := {};
      ghost var v0 := Look();
      SwitchStart(v0, held);
      while current != []
        invariant Switching(v0, Look(), held, gone)
        decreases Total(current, Slack(timers))
      {
        ghost var v := Look();
        SwitchOn(v0, v, held, gone);
        ghost var lost := ProcessHead(held);
        SwitchStep(v0, v, Look(), held, gone, lost);
        gone := gone + lost;
      }
      ghost var v := Look();
      SwitchEnd(v0, v, held, gone);
      SwitchOver(v0, v, held, gone);
      current, overflow := overflow, current;
      epochStart := epochStart + M;
    }

    /** The body of that loop. */
    method ProcessHead(ghost held: set<Timer>) returns (ghost gone: set<Timer>)
      requires Kept(Look(), held) && epochStart + M <= lastSample && Wrap(epochStart) == 0 && current != []
      modifies this`timers, this`current, this`queue, this`lives
      ensures HeadProcessed(old(Look()), Look(), held, gone)
      ensures Total(current, Slack(timers)) < old(Total(current, Slack(timers)))
    {
      hide Kept, Carried, Slack, Reloads, Total, SameTimers, Untouched, SameLives, Concerning, Idle, LeavesIdle,
          AllIdle;
      var timer := current[0];
      ghost var t, v := timer, Look();
      NothingChanged(timers, queue, held);
      TakeHead(Look(), held);
      HeadTotals(current, timers);
      var nextExpireTime := timers[timer].value;
      ghost var expired, hand := epochStart + nextExpireTime, held + {t};
      assert hand - {t} == held;
      RoomOf(Look(), held);
      current := current[1..];
      if t in lives {
        FireInHand(Look(), hand, t);
        lives := lives[t := Fired(lives[t], timers[t].period)];
      }
      gone := {};
      ghost var v1 := Look();
      FewerListed(v, v1, {t});
      if timers[timer].autoReload {
        gone := Restart(timer, nextExpireTime, expired, hand);
        IdleOn(v, {t}, v1, {t}, Look(), {t});
      } else {
        SettleDone(Look(), hand, t);
      }
      IdleBut(v, Look(), t);
      OneIdle(Look(), t, v.lives, gone);
      HeadDone(v, Look(), held, gone);
    }

    /** What that loop does with a timer that reloads. The restart is lost exactly when the next expiry lies in
        the next epoch and the queue is full. */
    method Restart(timer: Timer, nextExpireTime: Tick, ghost expired: nat, ghost hand: set<Timer>)
      returns (ghost gone: set<Timer>)
      requires Kept(Look(), hand) && timer in hand && timer in timers && timer !in current && timers[timer].autoReload
      requires expired == epochStart + nextExpireTime && Wrap(epochStart) == 0
      requires timer in lives ==> lives[timer].last == expired
      modifies this`timers, this`current, this`queue, this`lives
      ensures Kept(Look(), hand - {timer}) && SameTimers(old(timers), timers)
           && Untouched(old(queue), queue, hand - {timer})
      ensures gone == if nextExpireTime + old(timers)[timer].period >= M && |old(queue)| == queueLength then {timer}
                else {}
      ensures lives == old(lives) - gone && old(queue) <= queue && |queue| <= queueLength
      ensures Total(current, Slack(timers)) < old(Total(current, Slack(timers))) + M - nextExpireTime
      ensures |queue| + |gone| + Total(current, Reloads(timers)) == old(|queue| + Total(current, Reloads(timers))) + 1
      ensures (forall t :: t in current ==> t in old(current) || t == timer) && (gone != {} ==> timer !in current)
      ensures LeavesIdle(old(Look()), Look(), {timer})
      ensures gone != {} && Concerning(old(queue), timer) == [] ==> Idle(Look(), timer)
    {
      hide Kept, Slack, Reloads, Total, Inserted, Concerning;
      RoomOf(Look(), hand);
      OffLists(Look(), hand, timer);
      InsertedElements(current, timers, timer, Plus(nextExpireTime, timers[timer].period));
      gone := {};
      var reloadTime := Plus(nextExpireTime, timers[timer].period);
      if reloadTime > nextExpireTime {
        SettleListed(Look(), hand, timer, reloadTime, true);
        TotalsReinserted(current, timers, timer, reloadTime);
        timers, current := timers[timer := timers[timer].(value := reloadTime)],
                           Inserted(current, timers[timer := timers[timer].(value := reloadTime)], timer);
      } else {
        Advance(epochStart, nextExpireTime);
        SettleQueued(Look(), hand, timer, expired);
        QueuedElsewhere(queue, Message(Start, timer, nextExpireTime, expired));
        gone := SendRestart(Message(Start, timer, nextExpireTime, expired));
      }
    }

    /** `prvSampleTimeNow`, less than a counter period after the last time it was called. */
    method SampleTimeNow(tickCount: Tick, ghost now: nat, ghost held: set<Timer>)
      returns (timeNow: Tick, switched: bool, ghost gone: set<Timer>)
      requires Kept(Look(), held) && lastTime == Wrap(lastSample) && epochStart == Epoch(lastSample) * M
      requires lastSample <= now < lastSample + M && tickCount == Wrap(now)
      modifies this`timers, this`current, this`overflow, this`queue, this`lastTime, this`lastSample, this`epochStart,
          this`lives
      ensures Kept(Look(), held) && lastSample == now && lastTime == Wrap(now) && epochStart == Epoch(now) * M
           && timeNow == tickCount
      ensures switched == (Epoch(now) != Epoch(old(lastSample)))
      ensures SameTimers(old(timers), timers) && old(queue) <= queue && Untouched(old(queue), queue, held)
      ensures forall t :: t in gone ==> t in old(current)
      ensures gone == {} <==> switched ==> |old(queue)| + Total(old(current), Reloads(old(timers))) <= queueLength
      ensures gone != {} ==> |queue| == queueLength
      ensures SameLives(old(Look()), Look(), held, gone) && Carried(old(Look()), Look(), gone)
      ensures !switched ==>
                timers == old(timers) && current == old(current) && overflow == old(overflow) && queue == old(queue)
                    && lives == old(lives)
      ensures LeavesIdle(old(Look()), Look(), {}) && AllIdle(Look(), gone * old(lives).Keys)
    {
      hide Kept, Carried, LeavesIdle, AllIdle;
      timeNow, gone := tickCount, {};
      Advance(lastSample, now - lastSample);
      LaterKept(Look(), held, now);
      SameLivesCarried(Look(), held, Look().(sample := now), {});
      if timeNow < lastTime {
        Split(now);
        SplitUnique(epochStart, Epoch(lastSample), 0);
        assert (Epoch(lastSample) + 1) * M == epochStart + M;
        lastSample := now;
        ghost var v := Look();
        gone := SwitchTimerLists(held);
        CarriedOn(old(Look()), v, {}, Look(), gone);
        assert {} + gone == gone;
        FewerListed(old(Look()), v, {});
        IdleOn(old(Look()), {}, v, {}, Look(), {});
        switched := true;
      } else {
        lastSample := now;
        FewerListed(old(Look()), Look(), {});
        NoneIdle(Look(), lives);
        switched := false;
      }
      lastTime := timeNow;
    }

    /** One trip round the loop of `prvProcessReceivedCommands`. Timers that run undisturbed go on doing so, the one
        the message is about included if it is the restart it left itself; except those whose restart found the
        queue full, and the one whose restart is handled a counter period or more after its expiry. */
    method ProcessReceivedCommand(tickCount: Tick, ghost now: nat) returns (ghost gone: set<Timer>)
      requires Valid() && queue != [] && lastSample <= now < lastSample + M && tickCount == Wrap(now)
      requires queue[0].command.Delete? ==> Concerning(queue[1..], queue[0].timer) == []
      modifies this
      ensures Valid() && lastSample == now
      ensures old(queue)[1..] <= queue && Carried(old(Look()), Look(), gone)
      ensures gone == {} || |queue| == queueLength || Late(old(Look()), now)
      ensures forall x :: x in gone ==> x == old(queue)[0].timer || x in old(current)
      ensures |queue| < queueLength ==> gone <= {old(queue)[0].timer}
      ensures LeavesIdle(old(Look()), Look(), {})
      ensures AllIdle(Look(), gone * old(lives).Keys - if Late(old(Look()), now) then {old(queue)[0].timer} else {})
      ensures var Message(command, t, value, sentAt) := old(queue)[0];
              match command
              case Start => SameTimers(old(timers), timers) && (sentAt <= now < sentAt + M ==>
                              && t in old(timers) && (now < sentAt + old(timers)[t].period ==>
                                   t !in gone && Expires(Look(), t, sentAt + old(timers)[t].period))
                              && (Concerning(old(queue)[1..], t) == [] && t !in gone ==>
                                    t in lives && lives[t].start == if t in old(lives) then old(lives)[t].start
                                        else sentAt))
              case Stop => t !in current && t !in overflow && SameTimers(old(timers), timers)
              case ChangePeriod =>
                  t in old(timers) && SameTimers(old(timers)[t := old(timers)[t].(period := value)], timers)
                      && Expires(Look(), t, now + value)
              case Delete => t !in current && t !in overflow && SameTimers(old(timers) - {t}, timers)
    {
      hide Kept, Wrap, Epoch, Carried, Expires, SameTimers, Concerning, Idle, LeavesIdle, AllIdle;
      ghost var v0 := Look();
      ConcerningHead(queue, queue[0].timer);
      var message, timeNow, full := TakeCommand(tickCount, now);
      var timer := message.timer;
      ghost var v, lost := Look(), {};
      SameChange(old(timers), timers, timer);
      assert {timer} - {timer} == {};
      match message.command {
        case Start => {
          lost := StartTimer(timer, message.value, timeNow, message.sentAt);
        }
        case Stop => {
          SettleDone(Look(), {timer}, timer);
          SameLivesCarried(v, {timer}, Look(), {});
        }
        case ChangePeriod => {
          ChangeTimerPeriod(timer, message.value, timeNow);
        }
        case Delete => {
          Forget(Look(), timer);
          timers := timers - {timer};
          ForgetCarried(v, {timer}, timer);
        }
      }
      if message.command.Stop? || message.command.Delete? {
        FewerListed(v, Look(), {timer});
      }
      CarriedOn(v0, v, full, Look(), lost);
      gone := full + lost;
      IdleOn(v0, {}, v, {timer}, Look(), {timer});
      IdleBut(v0, Look(), timer);
      LostIdle(v0, v, Look(), timer, full, lost, Late(v0, now));
    }

    /** The part of that loop that all commands share: the message is taken from the queue and its timer off its
        list. */
    method TakeCommand(tickCount: Tick, ghost now: nat)
      returns (message: Message, timeNow: Tick, ghost gone: set<Timer>)
      requires Valid() && queue != [] && lastSample <= now < lastSample + M && tickCount == Wrap(now)
      modifies this
      ensures message == old(queue)[0] && message.timer in old(timers) && message.timer in timers && MessageOK(message)
      ensures timers[message.timer] == old(timers)[message.timer].(value := timers[message.timer].value)
           && SameTimers(old(timers), timers)
      ensures message.timer !in current && message.timer !in overflow && 0 < timers[message.timer].period
      ensures Kept(Look(), {message.timer}) && lastSample == now && timeNow == lastTime == Wrap(now)
           && epochStart == Epoch(now) * M
      ensures old(queue)[1..] <= queue && Concerning(queue, message.timer) == Concerning(old(queue)[1..], message.timer)
           && |queue| <= queueLength
      ensures Carried(old(Look()), Look(), gone) && message.timer !in gone && (gone != {} ==> |queue| == queueLength)
      ensures (forall x :: x in gone ==> x in old(current)) && LeavesIdle(old(Look()), Look(), {})
                  && AllIdle(Look(), gone * old(lives).Keys)
      ensures message.timer in lives <==> message.timer in old(lives)
      ensures message.timer in lives ==>
                && message.command == Start && lives[message.timer] == old(lives)[message.timer]
                && lives[message.timer].last == message.sentAt <= now
                && (timers[message.timer].autoReload || lives[message.timer].fired == [])
                && Concerning(queue, message.timer) == []
    {
      hide Kept, Wrap, Epoch, Carried, LeavesIdle, AllIdle;
      ghost var v0 := Look();
      TakeMessage(v0);
      message := Receive();
      ghost var v := Look();
      hide Received, OnBeat;
      SameLivesCarried(v0, {}, v, {});
      OffLists(v, {message.timer}, message.timer);
      var switched;
      timeNow, switched, gone := SampleTimeNow(tickCount, now, {message.timer});
      OffLists(Look(), {message.timer}, message.timer);
      RoomOf(Look(), {message.timer});
      CarriedOn(v0, v, {}, Look(), gone);
      assert {} + gone == gone;
      IdleOn(v0, {}, v, {}, Look(), {});
    }

    /** `xQueueReceive`, and `uxListRemove` if the timer is on a list. */
    method Receive() returns (message: Message)
      requires queue != []
      modifies this`queue, this`current, this`overflow
      ensures message == old(queue)[0] && Look() == Received(old(Look())) && queue == old(queue)[1..]
    {
      message := queue[0];
      queue := queue[1..];
      if message.timer in current {
        current := Without(current, message.timer);
      }
      if message.timer in overflow {
        overflow := Without(overflow, message.timer);
      }
    }

    /** A start command: the timer goes on a list, or has expired already and is processed on the spot, which counts
        as one callback. */
    method StartTimer(timer: Timer, value: Tick, timeNow: Tick, ghost sentAt: nat) returns (ghost gone: set<Timer>)
      requires Kept(Look(), {timer}) && timer in timers && 0 < timers[timer].period && value == Wrap(sentAt)
      requires timeNow == lastTime == Wrap(lastSample) && epochStart == Epoch(lastSample) * M
      requires timer in lives ==>
                lives[timer].last == sentAt <= lastSample && (timers[timer].autoReload || lives[timer].fired == [])
      modifies this`timers, this`current, this`overflow, this`queue, this`lives
      ensures Valid() && Carried(old(Look()), Look(), gone) && gone <= {timer}
      ensures timer in timers && timers == old(timers)[timer := old(timers)[timer].(value := timers[timer].value)]
      ensures old(queue) <= queue && |queue| <= queueLength
           && (gone != {} ==> |queue| == queueLength || (timer in old(lives) && sentAt + M <= lastSample))
      ensures sentAt <= lastSample < sentAt + M && lastSample < sentAt + old(timers)[timer].period ==>
                gone == {} && Expires(Look(), timer, sentAt + old(timers)[timer].period)
      ensures var p := old(timers)[timer].period;
              var known := timer in old(lives) || Concerning(old(queue), timer) == [];
              known && sentAt <= lastSample < sentAt + M ==>
                && (gone != {} <==>
                     old(timers)[timer].autoReload && sentAt + p <= lastSample && |old(queue)| == queueLength)
                && var life := if timer in old(lives) then old(lives)[timer] else Life(sentAt, sentAt, []);
                   lives == old(lives)[timer := if sentAt + p <= lastSample then Fired(life, p) else life] - gone
      ensures LeavesIdle(old(Look()), Look(), {timer})
      ensures gone != {} && Concerning(old(queue), timer) == [] ==>
                (timer in old(lives) && sentAt + M <= lastSample) || Idle(Look(), timer)
    {
      hide Kept, Epoch, Wrap, Carried, Expires, Concerning, Idle, LeavesIdle;
      ghost var v0 := Look();
      TrackStart(v0, timer, sentAt);
      ghost var late := if timer in lives && sentAt + M <= lastSample then {timer} else {};
      lives := Tracked(v0, timer, sentAt);
      ghost var v1 := Look();
      ghost var lost := InsertStarted(timer, value, timeNow, sentAt);
      gone := late + lost;
      FewerListed(v0, v1, {timer});
      IdleOn(v0, {timer}, v1, {timer}, Look(), {timer});
      OthersCarried(v0, {timer}, timer, Look(), gone);
    }

    /** The same, once it is settled whether anybody keeps account of the timer's beat. */
    method InsertStarted(timer: Timer, value: Tick, timeNow: Tick, ghost sentAt: nat) returns (ghost gone: set<Timer>)
      requires Kept(Look(), {timer}) && timer in timers && 0 < timers[timer].period && value == Wrap(sentAt)
      requires timeNow == lastTime == Wrap(lastSample) && epochStart == Epoch(lastSample) * M
      requires timer in lives ==>
                lives[timer].last == sentAt <= lastSample < sentAt + M
                    && (timers[timer].autoReload || lives[timer].fired == [])
      modifies this`timers, this`current, this`overflow, this`queue, this`lives
      ensures Valid() && gone <= {timer} && timer in timers
           && timers == old(timers)[timer := old(timers)[timer].(value := timers[timer].value)]
      ensures old(queue) <= queue && |queue| <= queueLength && (gone != {} ==> |queue| == queueLength)
      ensures var p := old(timers)[timer].period;
              sentAt <= lastSample < sentAt + M ==>
                && (gone != {} <==>
                     old(timers)[timer].autoReload && sentAt + p <= lastSample && |old(queue)| == queueLength)
                && (lastSample < sentAt + p ==> Expires(Look(), timer, sentAt + p))
      ensures timer !in old(lives) ==> lives == old(lives)
      ensures timer in old(lives) ==>
                lives == (if sentAt + timers[timer].period <= lastSample
                    then old(lives)[timer := Fired(old(lives)[timer], timers[timer].period)] else old(lives)) - gone
      ensures LeavesIdle(old(Look()), Look(), {timer})
           && (gone != {} && Concerning(old(queue), timer) == [] ==> Idle(Look(), timer))
    {
      hide Kept, Epoch, Wrap, Expires, Concerning, Placed, Listed, Fired, Idle, LeavesIdle;
      gone := {};
      ghost var v0 := Look();
      RoomOf(Look(), {timer});
      PlaceStart(Look(), timer, sentAt);
      var processNow := InsertTimerInActiveList(timer, Plus(value, timers[timer].period), timeNow, value);
      if processNow {
        ghost var v1 := Look();
        gone := ProcessLateStart(timer, value, sentAt);
        IdleOn(v0, {timer}, v1, {timer}, Look(), {timer});
      }
    }

    /** What that does with a timer that has expired by the time its start command is handled. The restart is lost
        exactly when the queue is full. */
    method ProcessLateStart(timer: Timer, value: Tick, ghost sentAt: nat) returns (ghost gone: set<Timer>)
      requires Kept(Look(), {timer}) && timer in timers && value == Wrap(sentAt)
      requires timer in lives ==>
                 && lives[timer].last == sentAt && sentAt + timers[timer].period <= lastSample
                 && (timers[timer].autoReload || lives[timer].fired == [])
      modifies this`queue, this`lives
      ensures Kept(Look(), {}) && old(queue) <= queue && |queue| <= queueLength
      ensures gone == if timers[timer].autoReload && |old(queue)| == queueLength then {timer} else {}
      ensures lives == (if timer in old(lives) then old(lives)[timer := Fired(old(lives)[timer], timers[timer].period)]
                else old(lives)) - gone
      ensures LeavesIdle(old(Look()), Look(), {timer})
           && (gone != {} && Concerning(old(queue), timer) == [] ==> Idle(Look(), timer))
    {
      hide Kept, Epoch, Wrap, Concerning, Idle, LeavesIdle;
      gone := {};
      ghost var v0 := Look();
      OffLists(Look(), {timer}, timer);
      ghost var p := timers[timer].period;
      RoomOf(Look(), {timer});
      assert {timer} - {timer} == {};
      if timer in lives {
        FireInHand(Look(), {timer}, timer);
        lives := lives[timer := Fired(lives[timer], p)];
      }
      if timers[timer].autoReload {
        Advance(sentAt, p);
        SettleQueued(Look(), {timer}, timer, sentAt + p);
        ghost var v1 := Look();
        FewerListed(v0, v1, {timer});
        gone := SendRestart(Message(Start, timer, Plus(value, timers[timer].period), sentAt + p));
        IdleOn(v0, {timer}, v1, {timer}, Look(), {timer});
        if gone != {} && Concerning(v0.queue, timer) == [] {
          LeftIdle(Look(), timer);
        }
      } else {
        SettleDone(Look(), {timer}, timer);
        FewerListed(v0, Look(), {timer});
      }
    }

    /** A change of period, which also starts the timer: it expires that long from now. */
    method ChangeTimerPeriod(timer: Timer, period: Tick, timeNow: Tick)
      requires Kept(Look(), {timer}) && timer in timers && 0 < period && timer !in lives
      requires timeNow == lastTime == Wrap(lastSample) && epochStart == Epoch(lastSample) * M
      modifies this`timers, this`current, this`overflow, this`lives
      ensures Valid() && Carried(old(Look()), Look(), {}) && timer in timers
      ensures timers == old(timers)[timer := old(timers)[timer].(period := period, value := timers[timer].value)]
           && Expires(Look(), timer, lastSample + period)
      ensures lives == if Concerning(old(queue), timer) == [] then old(lives)[timer := Life(lastSample, lastSample, [])]
                else old(lives)
      ensures LeavesIdle(old(Look()), Look(), {timer})
    {
      hide Kept, Carried, Expires, Placed, Listed, Concerning, Tracked, Idle, LeavesIdle;
      ghost var v0 := Look();
      PeriodAside(v0, timer, period);
      timers := timers[timer := timers[timer].(period := period)];
      TrackStart(Look(), timer, lastSample);
      TrackNow(Look(), timer);
      lives := Tracked(Look(), timer, lastSample);
      PlaceStart(Look(), timer, lastSample);
      ghost var v1 := Look();
      FewerListed(v0, v1, {timer});
      var processNow := InsertTimerInActiveList(timer, Plus(timeNow, timers[timer].period), timeNow, timeNow);
      IdleOn(v0, {timer}, v1, {timer}, Look(), {timer});
      OthersCarried(v0, {timer}, timer, Look(), {});
    }

    /** `xTimerGenericCommand` called by the application: it disturbs the timer it is about, and no other. */
    method Post(m: Message) returns (sent: bool)
      requires Valid() && m.timer in timers && MessageOK(m)
      modifies this`queue, this`lives
      ensures Valid() && sent == (|old(queue)| < queueLength)
      ensures queue == (if sent then old(queue) + [m] else old(queue)) && lives == if sent then old(lives) - {m.timer}
                else old(lives)
      ensures Carried(old(Look()), Look(), {m.timer}) && LeavesIdle(old(Look()), Look(), {m.timer})
    {
      hide Kept, Carried;
      ghost var v := Look();
      QueuedElsewhere(queue, m);
      if |queue| < queueLength {
        Disturb(Look(), m);
      }
      sent := GenericCommand(m);
      if sent {
        lives := lives - {m.timer};
      }
      SameLivesCarried(v, {}, Look(), {m.timer});
    }

    /** `prvCheckForValidListAndQueue`, and the timers that have been created by then. */
    constructor (queueLength: nat, timers: Controls)
      requires forall t :: t in timers ==> 0 < timers[t].period
      ensures Valid() && current == [] && overflow == [] && queue == [] && lives == map[] && this.timers == timers
           && lastSample == 0
      ensures this.queueLength == queueLength
    {
      this.queueLength := queueLength;
      this.timers := timers;
      current, overflow, queue, lastTime := [], [], [], 0;
      lastSample, epochStart, lives := 0, 0, map[];
      SplitUnique(0, 0, 0);
    }

    /** `prvGetNextExpireTime`: no timer on the current list expires earlier. */
    method GetNextExpireTime() returns (nextExpireTime: Tick, listWasEmpty: bool)
      requires Valid()
      ensures listWasEmpty == (current == []) && nextExpireTime == FirstExpiry(timers, current)
      ensures listWasEmpty ==> nextExpireTime == 0
      ensures forall t :: t in current ==> t in timers && nextExpireTime <= timers[t].value
      ensures !listWasEmpty ==> exists t :: t in current && t in timers && nextExpireTime == timers[t].value
    {
      listWasEmpty := current == [];
      if listWasEmpty {
        nextExpireTime := 0;
      } else {
        nextExpireTime := timers[current[0]].value;
      }
      forall t | t in current
        ensures t in timers && current != [] && current[0] in timers && timers[current[0]].value <= timers[t].value
      {
        FirstIsEarliest(current, timers, t);
      }
    }

    /** `prvProcessTimerOrBlockTask`: what the daemon does until its next look at the queue. */
    method ProcessTimerOrBlockTask(nextExpireTime: Tick, listWasEmpty: bool, tickCount: Tick, ghost now: nat)
      returns (action: Action, ghost gone: set<Timer>)
      requires Valid() && listWasEmpty == (current == []) && nextExpireTime == FirstExpiry(timers, current)
      requires lastSample <= now < lastSample + M && tickCount == Wrap(now)
      modifies this
      ensures Valid() && old(queue) <= queue && SameTimers(old(timers), timers)
      ensures lastSample == now && (action.Switch? <==> Epoch(now) != Epoch(old(lastSample)))
      ensures Carried(old(Look()), Look(), gone) && (gone != {} ==> |queue| == queueLength && !action.Block?)
      ensures (forall x :: x in gone ==> x in old(current)) && LeavesIdle(old(Look()), Look(), {})
                  && AllIdle(Look(), gone * old(lives).Keys)
      ensures action.Expire? <==>
                Epoch(now) == Epoch(old(lastSample)) && old(current) != [] && nextExpireTime <= tickCount
      ensures action.Expire? ==>
                var t := old(current)[0];
                t in old(timers) && gone == if old(timers)[t].autoReload
                    && epochStart + nextExpireTime + old(timers)[t].period <= now && |old(queue)| == queueLength
                                            then {t} else {}
      ensures action.Expire? && old(current)[0] in old(lives) - gone ==>
                var t := old(current)[0];
                t in old(timers) && lives == old(lives)[t := Fired(old(lives)[t], old(timers)[t].period)]
      ensures action.Block? ==>
                && current == old(current) && overflow == old(overflow) && timers == old(timers) && queue == old(queue)
                && lives == old(lives) && BlocksFor(Look(), action)
                && (queue == [] ==> AtRest(Look()))
      ensures action.Block? && action.ticks == 0 ==> current == [] && tickCount == 0
      ensures action.Block? && current != [] ==>
                && current[0] in timers && !action.indefinitely
                && now + action.ticks == Expiry(timers, current, epochStart, current[0])
      ensures action.Block? && current == [] ==>
                && action.indefinitely == INCLUDE_VTASK_SUSPEND
                && now + action.ticks == epochStart + if tickCount == 0 then 0 else M
    {
      hide Kept, Carried, LeavesIdle, AllIdle;
      Split(now);
      HeadControlled(Look());
      RoomOf(Look(), {});
      ghost var v0 := Look();
      var timeNow, switched, full := SampleTimeNow(tickCount, now, {});
      gone := full;
      if !switched {
        if !listWasEmpty && nextExpireTime <= timeNow {
          ghost var v1 := Look();
          ghost var t, lost := ProcessExpiredTimer(nextExpireTime, timeNow);
          RoomOf(Look(), {});
          CarriedOn(v0, v1, {}, Look(), lost);
          IdleOn(v0, {}, v1, {}, Look(), {});
          assert {} + lost == lost;
          gone := lost;
          action := Expire;
        } else {
          action := Block(listWasEmpty && INCLUDE_VTASK_SUSPEND, Minus(nextExpireTime, timeNow));
        }
      } else {
        action := Switch;
      }
    }
  }

  /** A restart that the timer left itself and that is handled a counter period or more after its expiry. */
  ghost predicate Late(v: View, now: nat) {
    v.queue != [] && v.queue[0].timer in v.lives && v.queue[0].sentAt + M <= now
  }

  /** The timer is on one list, and list and item value together say that it expires at that moment. */
  ghost predicate Expires(v: View, t: Timer, at: nat) {
    t in v.timers && (t in v.current || t in v.overflow) && Expiry(v.timers, v.current, v.epochStart, t) == at
  }

  /** The daemon has nothing to do: it blocks. */
  ghost predicate AtRest(v: View) {
    v.queue == [] && (v.current == [] || Wrap(v.sample) < FirstExpiry(v.timers, v.current))
  }

  datatype Action = Switch | Expire | Block(indefinitely: bool, ticks: Tick)

  function FirstExpiry(timers: Controls, current: seq<Timer>): Tick {
    if current != [] && current[0] in timers then timers[current[0]].value else 0
  }

  /** The daemon blocks until the first timer of the current list expires. If that list is empty it blocks without a
      time limit, or if there is no such thing until the counter next shows zero. */
  ghost predicate BlocksFor(v: View, b: Action) {
    && b.Block? && b.indefinitely == (v.current == [] && INCLUDE_VTASK_SUSPEND)
    && if v.current != [] then
         v.current[0] in v.timers && v.sample + b.ticks == Expiry(v.timers, v.current, v.epochStart, v.current[0])
       else v.sample + b.ticks == if v.sample == v.epochStart then v.sample else v.epochStart + M
  }

  /** The daemon, once it blocks, runs again no later than the first timer expires. */
  ghost predicate WakesInTime(v: View, b: Action) {
    forall t :: t in v.current || t in v.overflow ==>
      && t in v.timers && b.Block? && !b.indefinitely
      && v.sample + b.ticks <= Expiry(v.timers, v.current, v.epochStart, t)
  }

  /** It does, except in exactly one case: it blocks without a time limit when the current list is empty,
      though the overflow list need not be. */
  lemma DaemonWakesInTime(v: View, b: Action)
    requires Kept(v, {}) && v.epochStart == Epoch(v.sample) * M && BlocksFor(v, b)
    requires v.current == [] || Wrap(v.sample) < FirstExpiry(v.timers, v.current)
    ensures WakesInTime(v, b) <==> !(INCLUDE_VTASK_SUSPEND && v.current == [] && v.overflow != [])
  {
    Split(v.sample);
    if INCLUDE_VTASK_SUSPEND && v.current == [] && v.overflow != [] {
      assert v.overflow[0] in v.overflow;
    } else {
      forall t | t in v.current
        ensures v.current != [] && FirstExpiry(v.timers, v.current) <= v.timers[t].value
      {
        FirstIsEarliest(v.current, v.timers, t);
      }
    }
  }

  lemma FirstIsEarliest(list: seq<Timer>, timers: Controls, t: Timer)
    requires ListOK(list, timers) && t in list
    ensures list[0] in timers && t in timers && timers[list[0]].value <= timers[t].value
  {
    var j :| 0 <= j < |list| && list[j] == t;
    assert ValuesOf(list, timers)[0] <= ValuesOf(list, timers)[j];
    assert list[0] in list;
  }

  lemma HeadControlled(v: View)
    requires Kept(v, {})
    ensures v.current != [] ==> v.current[0] in v.timers
  {
  }

  lemma RoomOf(v: View, held: set<Timer>)
    requires Kept(v, held)
    ensures |v.queue| <= v.capacity && forall t :: t in v.timers ==> 0 < v.timers[t].period
  {
  }

  lemma OffLists(v: View, held: set<Timer>, t: Timer)
    requires Kept(v, held) && t in held
    ensures t in v.timers && t !in v.current && t !in v.overflow
  {
  }

  // ----- Runs -----

  /** The callbacks there should be by `now`: one for each period since the start or, of a one-shot timer, one. */
  ghost predicate OnTime(l: Life, c: Control, now: nat) {
    && 0 < c.period && l.start <= now
    && |l.fired| == (if c.autoReload then (now - l.start) / c.period else if l.start + c.period <= now then 1 else 0)
    && forall k :: 0 <= k < |l.fired| ==> l.fired[k] == l.start + (k + 1) * c.period
  }

  /** When the daemon blocks, a timer that runs undisturbed has called back for every period that has passed. */
  lemma RestIsOnTime(v: View, t: Timer)
    requires Kept(v, {}) && v.epochStart == Epoch(v.sample) * M && AtRest(v) && t in v.lives
    ensures t in v.timers && OnTime(v.lives[t], v.timers[t], v.sample)
  {
    RoomOf(v, {});
    assert Shown(v, t) && v.lives[t].last <= v.sample;
    hide Kept, OnBeat, OnTime, AtRest, Epoch;
    if v.timers[t].autoReload || v.lives[t].fired == [] {
      ListedAhead(v, t);
    }
    BeatOnTime(v.lives[t], v.timers[t], v.sample);
  }

  lemma ListedAhead(v: View, t: Timer)
    requires Kept(v, {}) && v.epochStart == Epoch(v.sample) * M && AtRest(v) && t in v.lives && t in v.timers
    requires v.timers[t].autoReload || v.lives[t].fired == []
    ensures v.sample < v.lives[t].last + v.timers[t].period
  {
    assert Shown(v, t);
    hide OnBeat;
    Split(v.sample);
    if t in v.current {
      FirstIsEarliest(v.current, v.timers, t);
    }
  }

  /** A timer on the beat whose next expiry, if it has one, lies ahead. */
  lemma BeatOnTime(l: Life, c: Control, now: nat)
    requires OnBeat(l, c.period) && 0 < c.period && l.last <= now
    requires c.autoReload || l.fired == [] ==> now < l.last + c.period
    requires !c.autoReload ==> |l.fired| <= 1
    ensures OnTime(l, c, now)
  {
    var p, n := c.period, |l.fired|;
    assert (n + 1) * p == n * p + p && n * p >= 0;
    if c.autoReload {
      Quotient(now - l.start, p, n);
    } else if n == 1 {
      assert l.last == l.start + p;
    } else {
      assert l.last == l.start;
    }
  }

  lemma Quotient(n: nat, p: nat, k: nat)
    requires 0 < p && k * p <= n < (k + 1) * p
    ensures n / p == k
  {
    var q := n / p;
    assert q * p <= n < (q + 1) * p;
    assert q < k ==> (q + 1) * p <= k * p;
    assert q > k ==> (k + 1) * p <= q * p;
  }

  /** Auto-reload timers lose and duplicate nothing, however the run goes: from view to view the contracts above say
      which timers are disturbed, by a command from the application, a restart that finds the queue full or a restart
      handled too late. If `t` never is one of them, then whenever the daemon blocks, its callback has been called for
      start + p, start + 2p and so on up to the present, each once and in this order, and for nothing else. */
  lemma {:induction false} RunOnBeat(views: seq<View>, gone: seq<set<Timer>>, t: Timer)
    requires |views| == |gone| + 1 && t in views[0].lives && t in views[0].timers
    requires forall i :: 0 <= i < |gone| ==> Carried(views[i], views[i + 1], gone[i]) && t !in gone[i]
    ensures var v0, v := views[0], views[|gone|];
            && Runs(v0, v, t)
            && (Kept(v, {}) && v.epochStart == Epoch(v.sample) * M && AtRest(v) ==>
                  OnTime(v.lives[t], v0.timers[t], v.sample) && v.lives[t].start == v0.lives[t].start)
    decreases |gone|
  {
    var n := |gone|;
    hide Kept, AtRest, OnTime, Epoch;
    if n > 0 {
      RunOnBeat(views[..n], gone[..n - 1], t);
      assert Carried(views[n - 1], views[n], gone[n - 1]);
    }
    var v := views[n];
    if Kept(v, {}) && v.epochStart == Epoch(v.sample) * M && AtRest(v) {
      RestIsOnTime(v, t);
      SameOnTime(v.lives[t], views[0].timers[t], v.timers[t], v.sample);
    }
  }

  lemma SameOnTime(l: Life, c: Control, c': Control, now: nat)
    requires c.period == c'.period && c.autoReload == c'.autoReload
    ensures OnTime(l, c, now) <==> OnTime(l, c', now)
  {
  }

  /** A timer that has become idle, by a lost restart or otherwise, stays so over any run in which nobody commands it:
      the contracts above say which timers each call may stir. */
  lemma {:induction false} IdleForGood(views: seq<View>, stirred: seq<set<Timer>>, t: Timer)
    requires |views| == |stirred| + 1 && Idle(views[0], t)
    requires forall i :: 0 <= i < |stirred| ==> LeavesIdle(views[i], views[i + 1], stirred[i]) && t !in stirred[i]
    ensures Idle(views[|stirred|], t)
    decreases |stirred|
  {
    var n := |stirred|;
    if n > 0 {
      hide Idle;
      IdleForGood(views[..n], stirred[..n - 1], t);
      assert LeavesIdle(views[n - 1], views[n], stirred[n - 1]);
    }
  }

  /** Two timers, of which only the first is on a list, and undisturbed. */
  lemma OnlyFirst(v: View)
    requires Kept(v, {}) && v.timers.Keys == {1, 2} && v.epochStart == 0 && Expires(v, 1, 1) && 1 in v.lives
         && Idle(v, 2)
    ensures v.current == [1] && v.timers[1].value == 1 && v.queue == []
  {
    assert Shown(v, 1);
    NoneConcerning(v.queue, 1);
    NoneConcerning(v.queue, 2);
    SomeElement(v.queue);
    assert v.current[0] in v.current && v.current[|v.current| - 1] in v.current;
    assert v.current[0] == v.current[|v.current| - 1] == 1;
  }

  /** A run of the service in which the restart of a timer is lost: with a queue of one message, a command to stop timer
      2 fills it while timer 1, of period one, expires and is already due again. The timer is idle from then on. */
  method RestartLost() returns (service: TimerService, ghost gone: set<Timer>)
    ensures service.Valid() && gone == {1} && 1 in service.timers && service.timers[1].autoReload
         && Idle(service.Look(), 1)
  {
    hide Kept, Carried, Expires;
    SplitUnique(2, 0, 2);
    SplitUnique(0, 0, 0);
    service := new TimerService(1, map[1 := Control(1, true, 0), 2 := Control(1, true, 0)]);
    LeftIdle(service.Look(), 2);
    var sent := service.Post(Message(Start, 1, 0, 0));
    assert [Message(Start, 1, 0, 0)][1..] == [];
    gone := service.ProcessReceivedCommand(0, 0);
    OnlyFirst(service.Look());
    sent := service.Post(Message(Stop, 2, 0, 0));
    var nextExpireTime, listWasEmpty := service.GetNextExpireTime();
    var action;
    ghost var lives := service.lives;
    action, gone := service.ProcessTimerOrBlockTask(nextExpireTime, listWasEmpty, 2, 2);
    assert 1 in gone * lives.Keys;
  }

  /** A timer on its own, on the overflow list and running undisturbed. */
  lemma OnlyOverflow(v: View, t: Timer)
    requires Kept(v, {}) && v.timers.Keys == {t} && v.epochStart == 0 && Expires(v, t, M + 1) && t in v.lives
    ensures v.current == [] && v.overflow != [] && v.queue == []
  {
    assert Shown(v, t);
    NoneConcerning(v.queue, t);
    SomeElement(v.current);
    SomeElement(v.queue);
  }

  /** A run of the service that ends with the daemon blocked without a time limit, though its only timer is to
      expire two ticks after the counter showed its largest value: it is on the overflow list, and the current list
      is empty. */
  method DaemonForgets() returns (service: TimerService, action: Action)
    requires INCLUDE_VTASK_SUSPEND
    ensures service.Valid() && AtRest(service.Look()) && action.Block? && action.indefinitely
    ensures Expires(service.Look(), 1, M + 1) && service.lastSample == M - 1
  {
    hide Kept, Carried;
    SplitUnique(M - 1, 0, M - 1);
    SplitUnique(0, 0, 0);
    service := new TimerService(1, map[1 := Control(2, true, 0)]);
    var sent := service.Post(Message(Start, 1, M - 1, M - 1));
    assert [Message(Start, 1, M - 1, M - 1)][1..] == [];
    ghost var gone := service.ProcessReceivedCommand(M - 1, M - 1);
    OnlyOverflow(service.Look(), 1);
    var nextExpireTime, listWasEmpty := service.GetNextExpireTime();
    ghost var more;
    action, more := service.ProcessTimerOrBlockTask(nextExpireTime, listWasEmpty, M - 1, M - 1);
  }
}
