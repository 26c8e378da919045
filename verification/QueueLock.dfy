/** Blocking on a queue: the protocol of `xQueueGenericSend` and `xQueueGenericReceive`, in which a task
    checks, locks the queue, joins a list of waiters and unlocks, while interrupts post and receive between
    any two of its steps and only count what they did. Posting to a queue that is no set member. */
module QueueLock {
  import opened Common

  /** queueUNLOCKED and queueLOCKED_UNMODIFIED. */
  const UNLOCKED := -1
  const LOCKED_UNMODIFIED := 0

  /** A lock count is a `BaseType_t`, and wraps like one. */
  function Increment(lock: int): int {
    if lock == MAX_BASE then -MAX_BASE - 1 else lock + 1
  }

  datatype Want = ToReceive | ToSend

  /** The program counter of the task that has suspended the scheduler, between two of its steps. */
  datatype Stage = Suspended | Locked | Timely | StillUnusable | Leaving | HalfUnlocked | Unlocked

  datatype Locker = NoLocker | Locker(task: Task, want: Want, stage: Stage)

  /** The queue, its two lists of waiters, and the tasks that an event has taken off a list and that have
      not looked at the queue again since. */
  datatype State = State(length: nat, messages: nat, txLock: int, rxLock: int,
                         waitingToReceive: seq<Task>, waitingToSend: seq<Task>,
                         wokenReceivers: set<Task>, wokenSenders: set<Task>, locker: Locker)
  {
    predicate Absent(t: Task) {
      t !in waitingToReceive && t !in waitingToSend && t !in wokenReceivers && t !in wokenSenders
    }

    predicate Usable(want: Want) {
      match want
      case ToReceive => messages > 0
      case ToSend => messages < length
    }

    function Waiters(want: Want): seq<Task> {
      match want
      case ToReceive => waitingToReceive
      case ToSend => waitingToSend
    }

    /** `xTaskRemoveFromEventList` on the list of receivers, if there is any. */
    function WakeReceiver(): State {
      if waitingToReceive == [] then this
      else this.(waitingToReceive := waitingToReceive[1..], wokenReceivers := wokenReceivers + {waitingToReceive[0]})
    }

    function WakeSender(): State {
      if waitingToSend == [] then this
      else this.(waitingToSend := waitingToSend[1..], wokenSenders := wokenSenders + {waitingToSend[0]})
    }
  }

  datatype Step =
    | SendFromISR(overwrite: bool)
    | ReceiveFromISR
    | Send(task: Task, overwrite: bool)
    | Receive(task: Task, peek: bool)
    | TimeOut(task: Task)
    | SuspendAll(task: Task, want: Want)
    | Lock
    | CheckTimeOut(expired: bool)
    | CheckQueue
    | Enlist(place: nat)
    | UnlockTx
    | UnlockRx
    | ResumeAll

  /** When each step may be taken. Only interrupts run while another task keeps the scheduler suspended; a
      task that waits does not run, and one that was woken first looks at the queue again. */
  predicate Enabled(s: State, e: Step) {
    match e
    case SendFromISR(overwrite) => overwrite ==> s.length == 1
    case ReceiveFromISR => true
    case Send(t, overwrite) =>
      s.locker.NoLocker? && t !in s.waitingToReceive && t !in s.waitingToSend && t !in s.wokenReceivers
          && (overwrite ==> s.length == 1)
    case Receive(t, peek) =>
      s.locker.NoLocker? && t !in s.waitingToReceive && t !in s.waitingToSend && t !in s.wokenSenders
    case TimeOut(t) => s.locker.NoLocker? && (t in s.waitingToReceive || t in s.waitingToSend)
    case SuspendAll(t, want) => s.locker.NoLocker? && s.Absent(t)
    case Lock => s.locker.Locker? && s.locker.stage.Suspended?
    case CheckTimeOut(expired) => s.locker.Locker? && s.locker.stage.Locked?
    case CheckQueue => s.locker.Locker? && s.locker.stage.Timely?
    case Enlist(p) => s.locker.Locker? && s.locker.stage.StillUnusable? && p <= |s.Waiters(s.locker.want)|
    case UnlockTx => s.locker.Locker? && s.locker.stage.Leaving?
    case UnlockRx => s.locker.Locker? && s.locker.stage.HalfUnlocked?
    case ResumeAll => s.locker.Locker? && s.locker.stage.Unlocked?
  }

  // ----- What each step does -----

  function AfterSendFromISR(s: State, overwrite: bool): State {
    if s.messages < s.length || overwrite then
      var posted := s.(messages := if s.messages < s.length then s.messages + 1 else s.messages);
      if posted.txLock == UNLOCKED then posted.WakeReceiver() else posted.(txLock := Increment(posted.txLock))
    else s
  }

  function AfterReceiveFromISR(s: State): State {
    if s.messages > 0 then
      var received := s.(messages := s.messages - 1);
      if received.rxLock == UNLOCKED then received.WakeSender() else received.(rxLock := Increment(received.rxLock))
    else s
  }

  function AfterSend(s: State, t: Task, overwrite: bool): State {
    var looked := s.(wokenSenders := s.wokenSenders - {t});
    if s.messages < s.length || overwrite then
      looked.(messages := if s.messages < s.length then s.messages + 1 else s.messages).WakeReceiver()
    else looked
  }

  function AfterReceive(s: State, t: Task, peek: bool): State {
    var looked := s.(wokenReceivers := s.wokenReceivers - {t});
    if s.messages > 0 then
      if peek then looked.WakeReceiver() else looked.(messages := s.messages - 1).WakeSender()
    else looked
  }

  function At(s: State, stage: Stage): State
    requires s.locker.Locker?
  {
    s.(locker := s.locker.(stage := stage))
  }

  function AfterLock(s: State): State {
    s.(rxLock := if s.rxLock == UNLOCKED then LOCKED_UNMODIFIED else s.rxLock,
       txLock := if s.txLock == UNLOCKED then LOCKED_UNMODIFIED else s.txLock)
  }

  function AfterEnlist(s: State, p: nat): State
    requires Enabled(s, Enlist(p))
  {
    match s.locker.want
    case ToReceive => s.(waitingToReceive := s.waitingToReceive[..p] + [s.locker.task] + s.waitingToReceive[p..])
    case ToSend => s.(waitingToSend := s.waitingToSend[..p] + [s.locker.task] + s.waitingToSend[p..])
  }

  function First(s: seq<Task>, n: nat): set<Task>
    requires n <= |s|
  {
    set i | 0 <= i < n :: s[i]
  }

  /** The first half of `prvUnlockQueue`: one receiver is woken for each post made while locked. */
  function AfterUnlockTx(s: State): State {
    var n := Min(Positive(s.txLock), |s.waitingToReceive|);
    s.(waitingToReceive := s.waitingToReceive[n..],
       wokenReceivers := s.wokenReceivers + First(s.waitingToReceive, n),
       txLock := UNLOCKED)
  }

  /** The second half: one sender for each item removed. */
  function AfterUnlockRx(s: State): State {
    var n := Min(Positive(s.rxLock), |s.waitingToSend|);
    s.(waitingToSend := s.waitingToSend[n..],
       wokenSenders := s.wokenSenders + First(s.waitingToSend, n),
       rxLock := UNLOCKED)
  }

  function Next(s: State, e: Step): State
    requires Enabled(s, e)
  {
    match e
    case SendFromISR(overwrite) => AfterSendFromISR(s, overwrite)
    case ReceiveFromISR => AfterReceiveFromISR(s)
    case Send(t, overwrite) => AfterSend(s, t, overwrite)
    case Receive(t, peek) => AfterReceive(s, t, peek)
    case TimeOut(t) =>
        s.(waitingToReceive := Without(s.waitingToReceive, t), waitingToSend := Without(s.waitingToSend, t))
    case SuspendAll(t, want) => s.(locker := Locker(t, want, Suspended))
    case Lock => At(AfterLock(s), Locked)
    case CheckTimeOut(expired) => At(s, if expired then Leaving else Timely)
    case CheckQueue => At(s, if s.Usable(s.locker.want) then Leaving else StillUnusable)
    case Enlist(p) => At(AfterEnlist(s, p), Leaving)
    case UnlockTx => At(AfterUnlockTx(s), HalfUnlocked)
    case UnlockRx => At(AfterUnlockRx(s), Unlocked)
    case ResumeAll => s.(locker := NoLocker)
  }

  /** The 128th post, or the 128th removal, that an interrupt makes while the queue is locked. */
  predicate Wraps(s: State, e: Step) {
    match e
    case SendFromISR(overwrite) => (s.messages < s.length || overwrite) && s.txLock == MAX_BASE
    case ReceiveFromISR => s.messages > 0 && s.rxLock == MAX_BASE
    case _ => false
  }

  // ----- The invariant -----

  /** A task waits once, on one list, and not while it is woken. */
  ghost predicate ListsOK(s: State) {
    && Distinct(s.waitingToReceive) && Distinct(s.waitingToSend)
    && (forall t :: t in s.waitingToReceive ==> t !in s.waitingToSend && t !in s.wokenReceivers && t !in s.wokenSenders)
    && (forall t :: t in s.waitingToSend ==> t !in s.wokenReceivers && t !in s.wokenSenders)
    && (s.locker.Locker? && NotYetListed(s.locker.stage) ==> s.Absent(s.locker.task))
  }

  predicate NotYetListed(stage: Stage) {
    stage.Suspended? || stage.Locked? || stage.Timely? || stage.StillUnusable?
  }

  ghost predicate LocksOK(s: State) {
    if s.locker.NoLocker? || s.locker.stage.Suspended?
        || s.locker.stage.Unlocked? then s.txLock == UNLOCKED && s.rxLock == UNLOCKED
    else if s.locker.stage.HalfUnlocked? then s.txLock == UNLOCKED && s.rxLock >= 0
    else s.txLock >= 0 && s.rxLock >= 0
  }

  /** What `BaseType_t` can hold. */
  ghost predicate CountsOK(s: State) {
    s.txLock <= MAX_BASE && s.rxLock <= MAX_BASE
  }

  function Positive(lock: int): nat {
    if lock < 0 then 0 else lock
  }

  predicate AboutToWait(s: State, want: Want) {
    s.locker.Locker? && s.locker.want == want && s.locker.stage.StillUnusable?
  }

  /** While a task waits to receive, every message is spoken for: by a receiver that was woken and has yet to
      look, or by the count that the unlocking task will turn into wake-ups. Likewise for senders. */
  ghost predicate NoWakeUpLost(s: State) {
    && (s.waitingToReceive != [] || AboutToWait(s, ToReceive) ==> s.messages <= |s.wokenReceivers| + Positive(s.txLock))
    && (s.waitingToSend != [] || AboutToWait(s, ToSend) ==>
         s.length - s.messages <= |s.wokenSenders| + Positive(s.rxLock))
  }

  ghost predicate Inv(s: State) {
    s.messages <= s.length && ListsOK(s) && LocksOK(s) && NoWakeUpLost(s)
  }

  lemma DistinctDrop(s: seq<Task>, n: nat)
    requires Distinct(s) && n <= |s|
    ensures Distinct(s[n..]) && forall i :: 0 <= i < n ==> s[i] !in s[n..]
    ensures |First(s, n)| == n && forall t :: t in First(s, n) ==> t in s
  {
    if n > 0 {
      DistinctDrop(s, n - 1);
      assert First(s, n) == First(s, n - 1) + {s[n - 1]};
    }
  }

  lemma UnlockTxKeeps(s: State)
    requires Inv(s) && Enabled(s, UnlockTx)
    ensures Inv(Next(s, UnlockTx))
  {
    DistinctDrop(s.waitingToReceive, Min(Positive(s.txLock), |s.waitingToReceive|));
  }

  lemma UnlockRxKeeps(s: State)
    requires Inv(s) && Enabled(s, UnlockRx)
    ensures Inv(Next(s, UnlockRx))
  {
    DistinctDrop(s.waitingToSend, Min(Positive(s.rxLock), |s.waitingToSend|));
  }

  lemma SendFromISRKeeps(s: State, e: Step)
    requires Inv(s) && Enabled(s, e) && !Wraps(s, e) && e.SendFromISR?
    ensures Inv(Next(s, e))
  {
  }

  lemma ReceiveFromISRKeeps(s: State, e: Step)
    requires Inv(s) && Enabled(s, e) && !Wraps(s, e) && e.ReceiveFromISR?
    ensures Inv(Next(s, e))
  {
  }

  lemma SendKeeps(s: State, e: Step)
    requires Inv(s) && Enabled(s, e) && e.Send?
    ensures Inv(Next(s, e))
  {
  }

  lemma ReceiveKeeps(s: State, e: Step)
    requires Inv(s) && Enabled(s, e) && e.Receive? && !e.peek
    ensures Inv(Next(s, e))
  {
  }

  lemma PeekKeeps(s: State, e: Step)
    requires Inv(s) && Enabled(s, e) && e.Receive? && e.peek
    ensures Inv(Next(s, e))
  {
  }

  lemma EnlistKeeps(s: State, e: Step)
    requires Inv(s) && Enabled(s, e) && e.Enlist?
    ensures Inv(Next(s, e))
  {
    InsertDistinct(s.Waiters(s.locker.want), e.place, s.locker.task);
    hide Distinct;
  }

  /** Every step of every task and interrupt keeps the invariant. */
  lemma StepKeeps(s: State, e: Step)
    requires Inv(s) && Enabled(s, e) && !Wraps(s, e)
    ensures Inv(Next(s, e))
  {
    match e {
      case SendFromISR(_) => SendFromISRKeeps(s, e);
      case ReceiveFromISR => ReceiveFromISRKeeps(s, e);
      case Send(_, _) => SendKeeps(s, e);
      case Receive(_, peek) => {
        if peek {
          PeekKeeps(s, e);
        } else {
          ReceiveKeeps(s, e);
        }
      }
      case TimeOut(t) => {
        WithoutElements(s.waitingToReceive, t);
        WithoutElements(s.waitingToSend, t);
      }
      case Enlist(_) => EnlistKeeps(s, e);
      case UnlockTx => UnlockTxKeeps(s);
      case UnlockRx => UnlockRxKeeps(s);
      case _ => {
      }
    }
  }

  /** A step keeps the invariant if and only if it is not the one at which a lock count wraps: the count then no longer
      says how many wake-ups are owed. */
  lemma LockCountWraps(s: State, e: Step)
    requires Inv(s) && CountsOK(s) && Enabled(s, e)
    ensures Inv(Next(s, e)) <==> !Wraps(s, e)
    ensures CountsOK(Next(s, e))
  {
    if !Wraps(s, e) {
      hide Inv;
      StepKeeps(s, e);
    }
  }

  /** Any interleaving of tasks, interrupts and timeouts. */
  ghost predicate Path(s: State, es: seq<Step>)
    decreases es
  {
    es != [] ==> Enabled(s, es[0]) && Path(Next(s, es[0]), es[1..])
  }

  function Last(s: State, es: seq<Step>): State
    requires Path(s, es)
    decreases es
  {
    if es == [] then s else Last(Next(s, es[0]), es[1..])
  }

  /** One in which no lock count wraps. */
  ghost predicate Run(s: State, es: seq<Step>)
    decreases es
  {
    es != [] ==> Enabled(s, es[0]) && !Wraps(s, es[0]) && Run(Next(s, es[0]), es[1..])
  }

  lemma {:induction false} RunIsPath(s: State, es: seq<Step>)
    requires Run(s, es)
    ensures Path(s, es)
    decreases es
  {
    if es != [] {
      RunIsPath(Next(s, es[0]), es[1..]);
    }
  }

  /** A queue just created, or one that nobody waits for. */
  ghost predicate Init(s: State) {
    && s.messages <= s.length && s.txLock == UNLOCKED && s.rxLock == UNLOCKED && s.locker.NoLocker?
    && s.waitingToReceive == [] && s.waitingToSend == [] && s.wokenReceivers == {} && s.wokenSenders == {}
  }

  /** No wake-up is lost, however the run goes: whenever the queue is unlocked and every woken task has
      looked at it again, no task waits to receive from a queue with messages or to send to one with room. */
  lemma {:induction false} NoWaiterForgotten(s: State, es: seq<Step>)
    requires Inv(s) && Run(s, es)
    ensures Path(s, es) && Inv(Last(s, es)) && !Forgotten(Last(s, es))
    decreases es
  {
    if es != [] {
      hide Inv, Forgotten;
      StepKeeps(s, es[0]);
      NoWaiterForgotten(Next(s, es[0]), es[1..]);
    }
  }

  /** A task waits for a queue that it could use, and nobody is on the way to wake it. */
  ghost predicate Forgotten(s: State) {
    s.locker.NoLocker? &&
    ((s.wokenReceivers == {} && s.waitingToReceive != [] && s.messages > 0)
     || (s.wokenSenders == {} && s.waitingToSend != [] && s.messages < s.length))
  }

  /** In particular none from the creation of the queue on. */
  lemma NeverForgotten(s: State, es: seq<Step>)
    requires Init(s) && Run(s, es)
    ensures Path(s, es) && Inv(Last(s, es)) && !Forgotten(Last(s, es))
  {
    assert Inv(s);
    hide Inv, Forgotten;
    NoWaiterForgotten(s, es);
  }

  function Posts(n: nat): seq<Step> {
    if n == 0 then [] else [SendFromISR(false)] + Posts(n - 1)
  }

  lemma PathFirst(s: State, e: Step, es: seq<Step>)
    requires Enabled(s, e) && Path(Next(s, e), es)
    ensures Path(s, [e] + es) && Last(s, [e] + es) == Last(Next(s, e), es)
  {
    assert ([e] + es)[1..] == es;
  }

  lemma NoSteps(s: State)
    ensures Path(s, []) && Last(s, []) == s
  {
  }

  function Posted(s: State, n: nat): State {
    s.(messages := s.messages + n, txLock := s.txLock + n)
  }

  lemma PostOne(s: State)
    requires 0 <= s.txLock < MAX_BASE && s.messages < s.length
    ensures Enabled(s, SendFromISR(false)) && Next(s, SendFromISR(false)) == Posted(s, 1)
  {
  }

  /** Posts to a locked queue, and what follows them. */
  lemma {:induction false} PostsLocked(s: State, n: nat, es: seq<Step>)
    requires 0 <= s.txLock && s.txLock + n <= MAX_BASE && s.messages + n <= s.length && Path(Posted(s, n), es)
    ensures Path(s, Posts(n) + es) && Last(s, Posts(n) + es) == Last(Posted(s, n), es)
    decreases n
  {
    hide Next, Enabled, Path, Last;
    if n == 0 {
      assert Posts(0) + es == es && Posted(s, 0) == s;
    } else {
      PostOne(s);
      assert Posted(Posted(s, 1), n - 1) == Posted(s, n);
      PostsLocked(Posted(s, 1), n - 1, es);
      hide Posted;
      PathFirst(s, SendFromISR(false), Posts(n - 1) + es);
      assert Posts(n) + es == [SendFromISR(false)] + (Posts(n - 1) + es);
    }
  }

  /** An empty queue of 200 items, on which task 1 has started to block with the queue locked. */
  function Blocking(): State {
    State(200, 0, 0, 0, [], [], {}, {}, Locker(1, ToReceive, StillUnusable))
  }

  /** The steps that follow 127 posts from interrupts: one post more, and the task ends up on the list and unlocks. */
  function AfterPosts(): seq<Step> {
    [SendFromISR(false)] + ([Enlist(0)] + Unlocking())
  }

  /** A run from a new queue to a task that waits to receive from it though it holds 128 messages: that many interrupts
      post while the task blocks, and the last of them makes the lock count wrap. */
  lemma WakeUpLost() returns (s: State, es: seq<Step>)
    ensures Init(s) && Path(s, es) && Forgotten(Last(s, es))
    ensures Last(s, es).waitingToReceive == [1] && Last(s, es).messages == 128
  {
    hide Posts, Next, Path, Last;
    s := State(200, 0, UNLOCKED, UNLOCKED, [], [], {}, {}, NoLocker);
    var t := Blocking().(messages := 127, txLock := 127);
    EndOfPosts(t);
    PostsLocked(Blocking(), 127, AfterPosts());
    var rest := Posts(127) + AfterPosts();
    StartBlocking(s, rest);
    es := [SuspendAll(1, ToReceive)] + ([Lock] + ([CheckTimeOut(false)] + ([CheckQueue] + rest)));
  }

  lemma StartBlocking(s: State, rest: seq<Step>)
    requires s == State(200, 0, UNLOCKED, UNLOCKED, [], [], {}, {}, NoLocker) && Path(Blocking(), rest)
    ensures var es := [SuspendAll(1, ToReceive)] + ([Lock] + ([CheckTimeOut(false)] + ([CheckQueue] + rest)));
            Path(s, es) && Last(s, es) == Last(Blocking(), rest)
  {
    hide Path, Last;
    var s1 := Next(s, SuspendAll(1, ToReceive));
    var s2 := Next(s1, Lock);
    var s3 := Next(s2, CheckTimeOut(false));
    PathFirst(s3, CheckQueue, rest);
    PathFirst(s2, CheckTimeOut(false), [CheckQueue] + rest);
    PathFirst(s1, Lock, [CheckTimeOut(false)] + ([CheckQueue] + rest));
    PathFirst(s, SuspendAll(1, ToReceive), [Lock] + ([CheckTimeOut(false)] + ([CheckQueue] + rest)));
  }

  lemma EndOfPosts(t: State)
    requires t == Blocking().(messages := 127, txLock := 127)
    ensures Path(t, AfterPosts())
         && Last(t, AfterPosts()) == State(200, 128, UNLOCKED, UNLOCKED, [1], [], {}, {}, NoLocker)
  {
    var t1 := t.(messages := 128, txLock := -128);
    var t2 := t1.(waitingToReceive := [1], locker := Locker(1, ToReceive, Leaving));
    assert Next(t, SendFromISR(false)) == t1 && Next(t1, Enlist(0)) == t2;
    hide Next, Path, Last;
    UnlockWithoutWaking(t2);
    PathFirst(t1, Enlist(0), Unlocking());
    PathFirst(t, SendFromISR(false), [Enlist(0)] + Unlocking());
  }

  /** The steps by which a task unlocks the queue and resumes the scheduler, and the state they lead to. */
  function Unlocking(): seq<Step> {
    [UnlockTx] + ([UnlockRx] + ([ResumeAll] + []))
  }

  function AfterUnlock(s: State): State {
    AfterUnlockRx(AfterUnlockTx(s)).(locker := NoLocker)
  }

  lemma UnlockTxStep(s: State)
    requires s.locker.Locker? && s.locker.stage.Leaving?
    ensures AfterUnlockTx(s).locker == s.locker
    ensures Enabled(s, UnlockTx) && Next(s, UnlockTx) == At(AfterUnlockTx(s), HalfUnlocked)
  {
  }

  lemma UnlockRxStep(s: State)
    requires s.locker.Locker?
    ensures AfterUnlockRx(s).locker == s.locker
    ensures Enabled(At(s, HalfUnlocked), UnlockRx)
         && Next(At(s, HalfUnlocked), UnlockRx) == At(AfterUnlockRx(s), Unlocked)
  {
  }

  lemma ResumeAllStep(s: State)
    requires s.locker.Locker?
    ensures Enabled(At(s, Unlocked), ResumeAll) && Next(At(s, Unlocked), ResumeAll) == s.(locker := NoLocker)
  {
  }

  lemma UnlockingLeadsTo(s: State)
    requires s.locker.Locker? && s.locker.stage.Leaving?
    ensures Path(s, Unlocking()) && Last(s, Unlocking()) == AfterUnlock(s)
  {
    hide Path, Last, Next, Enabled, AfterUnlockTx, AfterUnlockRx, At;
    var s1 := AfterUnlockTx(s);
    UnlockTxStep(s);
    UnlockRxStep(s1);
    var s2 := AfterUnlockRx(s1);
    ResumeAllStep(s2);
    NoSteps(s2.(locker := NoLocker));
    PathFirst(At(s2, Unlocked), ResumeAll, []);
    PathFirst(At(s1, HalfUnlocked), UnlockRx, [ResumeAll] + []);
    PathFirst(s, UnlockTx, [UnlockRx] + ([ResumeAll] + []));
  }

  /** A count that has wrapped wakes nobody, nor does one of zero. */
  lemma UncountedPosts(s: State)
    requires s.txLock <= 0
    ensures AfterUnlockTx(s) == s.(txLock := UNLOCKED)
  {
    assert First(s.waitingToReceive, 0) == {};
    assert s.wokenReceivers + {} == s.wokenReceivers;
  }

  lemma UncountedRemovals(s: State)
    requires s.rxLock <= 0
    ensures AfterUnlockRx(s) == s.(rxLock := UNLOCKED)
  {
    assert First(s.waitingToSend, 0) == {};
    assert s.wokenSenders + {} == s.wokenSenders;
  }

  lemma UnlockWithoutWaking(s: State)
    requires s.locker.Locker? && s.locker.stage.Leaving? && s.txLock < 0 && s.rxLock <= 0
    ensures Path(s, Unlocking()) && Last(s, Unlocking())
              == s.(txLock := UNLOCKED, rxLock := UNLOCKED, locker := NoLocker)
  {
    UnlockingLeadsTo(s);
    UncountedPosts(s);
    UncountedRemovals(s.(txLock := UNLOCKED));
    hide Path, Last, AfterUnlockTx, AfterUnlockRx;
  }

  /** While the wake-ups owed to receivers are counted, unlocking forgets none of them. */
  lemma CountedReceivers(s: State)
    requires ListsOK(s) && (s.waitingToReceive != [] ==> s.messages <= |s.wokenReceivers| + Positive(s.txLock))
    ensures var s' := AfterUnlock(s); s'.wokenReceivers == {} && s'.waitingToReceive != [] ==> s'.messages == 0
  {
    DistinctDrop(s.waitingToReceive, Min(Positive(s.txLock), |s.waitingToReceive|));
  }

  lemma CountedSenders(s: State)
    requires ListsOK(s) && (s.waitingToSend != [] ==> s.length - s.messages <= |s.wokenSenders| + Positive(s.rxLock))
    ensures var s' := AfterUnlock(s); s'.wokenSenders == {} && s'.waitingToSend != [] ==> s'.messages >= s'.length
  {
    DistinctDrop(s.waitingToSend, Min(Positive(s.rxLock), |s.waitingToSend|));
  }

  /** What unlocking does to the side whose count has wrapped. */
  lemma NothingCounted(s: State)
    ensures s.txLock <= 0 ==>
              AfterUnlock(s).waitingToReceive == s.waitingToReceive && AfterUnlock(s).wokenReceivers == s.wokenReceivers
    ensures s.rxLock <= 0 ==>
              AfterUnlock(s).waitingToSend == s.waitingToSend && AfterUnlock(s).wokenSenders == s.wokenSenders
    ensures AfterUnlock(s).messages == s.messages && AfterUnlock(s).length == s.length
         && AfterUnlock(s).locker.NoLocker?
  {
    if s.txLock <= 0 {
      UncountedPosts(s);
    }
    if s.rxLock <= 0 {
      UncountedRemovals(AfterUnlockTx(s));
    }
    hide First;
  }

  /** The step at which a count wraps, and the accounting of the other side. */
  lemma WrappingStep(s: State, e: Step)
    requires Inv(s) && Enabled(s, e) && Wraps(s, e) && s.locker.stage.Leaving?
    ensures var s1 := Next(s, e);
            && s1.locker == s.locker && s1.messages <= s1.length && ListsOK(s1)
            && s1.waitingToReceive == s.waitingToReceive && s1.wokenReceivers == s.wokenReceivers
            && s1.waitingToSend == s.waitingToSend && s1.wokenSenders == s.wokenSenders
            && if e.SendFromISR? then
                 && s1.txLock < 0 && s1.messages > 0
                 && (s1.waitingToSend != [] ==> s1.length - s1.messages <= |s1.wokenSenders| + Positive(s1.rxLock))
               else
                 && s1.rxLock < 0 && s1.messages < s1.length
                 && (s1.waitingToReceive != [] ==> s1.messages <= |s1.wokenReceivers| + Positive(s1.txLock))
  {
    hide Distinct;
  }

  /** When a lock count wraps and the queue is then unlocked, a task is left waiting though there is something for it if
      and only if some task waits on the side that was counted, and no woken one will make way for it. */
  lemma WrappedForgets(s: State, e: Step)
    requires Inv(s) && Enabled(s, e) && Wraps(s, e) && s.locker.stage.Leaving?
    ensures Forgotten(AfterUnlock(Next(s, e))) <==>
              if e.SendFromISR? then s.wokenReceivers == {} && s.waitingToReceive != []
              else s.wokenSenders == {} && s.waitingToSend != []
  {
    WrappingStep(s, e);
    var s1 := Next(s, e);
    if e.SendFromISR? {
      ReceiversForgotten(s1);
    } else {
      SendersForgotten(s1);
    }
  }

  lemma ReceiversForgotten(s: State)
    requires ListsOK(s) && s.txLock < 0 && s.messages > 0
    requires s.waitingToSend != [] ==> s.length - s.messages <= |s.wokenSenders| + Positive(s.rxLock)
    ensures Forgotten(AfterUnlock(s)) <==> s.wokenReceivers == {} && s.waitingToReceive != []
  {
    hide AfterUnlock, ListsOK, Positive;
    NothingCounted(s);
    CountedSenders(s);
  }

  lemma SendersForgotten(s: State)
    requires ListsOK(s) && s.rxLock < 0 && s.messages < s.length
    requires s.waitingToReceive != [] ==> s.messages <= |s.wokenReceivers| + Positive(s.txLock)
    ensures Forgotten(AfterUnlock(s)) <==> s.wokenSenders == {} && s.waitingToSend != []
  {
    hide AfterUnlock, ListsOK, Positive;
    NothingCounted(s);
    CountedReceivers(s);
  }

  /** Both as runs of the protocol. */
  lemma WrapForgets(s: State, e: Step)
    requires Inv(s) && Enabled(s, e) && Wraps(s, e) && s.locker.stage.Leaving?
    ensures Path(s, [e] + Unlocking())
    ensures Forgotten(Last(s, [e] + Unlocking())) <==>
              if e.SendFromISR? then s.wokenReceivers == {} && s.waitingToReceive != []
              else s.wokenSenders == {} && s.waitingToSend != []
  {
    WrappedForgets(s, e);
    WrappingStep(s, e);
    hide Path, Last, Next, Enabled, AfterUnlock, Unlocking, Inv, Forgotten;
    UnlockingLeadsTo(Next(s, e));
    PathFirst(s, e, Unlocking());
  }

  // ----- What no step loses -----

  /** A post that adds a message, and a receive that takes one. */
  predicate Adds(s: State, e: Step) {
    (e.SendFromISR? || e.Send?) && s.messages < s.length
  }

  predicate Takes(s: State, e: Step) {
    (e.ReceiveFromISR? || (e.Receive? && !e.peek)) && s.messages > 0
  }

  ghost function Added(s: State, es: seq<Step>): nat
    requires Path(s, es)
    decreases es
  {
    if es == [] then 0 else (if Adds(s, es[0]) then 1 else 0) + Added(Next(s, es[0]), es[1..])
  }

  ghost function Taken(s: State, es: seq<Step>): nat
    requires Path(s, es)
    decreases es
  {
    if es == [] then 0 else (if Takes(s, es[0]) then 1 else 0) + Taken(Next(s, es[0]), es[1..])
  }

  lemma StepCounts(s: State, e: Step)
    requires Enabled(s, e)
    ensures Next(s, e).messages == s.messages + (if Adds(s, e) then 1 else 0) - (if Takes(s, e) then 1 else 0)
    ensures Next(s, e).length == s.length
  {
  }

  /** Messages are neither made nor lost, whatever is interleaved: those at the end are those at the start, with those
      added by posts, less those taken by receives. */
  lemma {:induction false} MessagesConserved(s: State, es: seq<Step>)
    requires Path(s, es)
    ensures Last(s, es).messages == s.messages + Added(s, es) - Taken(s, es)
    decreases es
  {
    if es != [] {
      StepCounts(s, es[0]);
      MessagesConserved(Next(s, es[0]), es[1..]);
    }
  }

  /** The tasks on the lists, and those taken off them by an event that have not looked at the queue again since. */
  ghost function Pending(s: State): set<Task> {
    (set t | t in s.waitingToReceive) + (set t | t in s.waitingToSend) + s.wokenReceivers + s.wokenSenders
  }

  /** Who joins them with a step, and who leaves: the task that blocks, and the task that times out or looks again. */
  ghost function Joining(s: State, e: Step): set<Task> {
    if e.Enlist? && s.locker.Locker? then {s.locker.task} else {}
  }

  ghost function Parting(e: Step): set<Task> {
    match e
    case TimeOut(t) => {t}
    case Send(t, _) => {t}
    case Receive(t, _) => {t}
    case _ => {}
  }

  /** A task that has blocked is on a list or woken until it times out or looks at the queue again: no step loses
      one. */
  lemma StepKeepsTasks(s: State, e: Step)
    requires ListsOK(s) && Enabled(s, e)
    ensures Pending(Next(s, e)) == Pending(s) - Parting(e) + Joining(s, e)
  {
    hide Pending, State.WakeReceiver, State.WakeSender, Without, Distinct, First, AfterEnlist, AfterUnlockTx,
        AfterUnlockRx;
    match e {
      case TimeOut(t) => TimeOutTasks(s, t);
      case Enlist(p) => EnlistTasks(s, p);
      case UnlockTx => UnlockTasks(s);
      case UnlockRx => UnlockTasks(s);
      case Send(t, _) => LookTasks(s, t);
      case Receive(t, _) => LookTasks(s, t);
      case _ => {
      }
    }
    WakeTasks();
    SameTasks();
  }

  /** So over any run: a task that waits or is woken does or is so until it times out or looks again. */
  lemma {:induction false} NoTaskLost(s: State, es: seq<Step>, t: Task)
    requires Inv(s) && Run(s, es) && t in Pending(s) && forall e :: e in es ==> t !in Parting(e)
    ensures Path(s, es) && t in Pending(Last(s, es))
    decreases es
  {
    hide Inv, Pending, Parting;
    if es != [] {
      assert es[0] in es;
      StepKeeps(s, es[0]);
      ListsOf(s);
      StepKeepsTasks(s, es[0]);
      NoTaskLost(Next(s, es[0]), es[1..], t);
    }
  }

  lemma ListsOf(s: State)
    requires Inv(s)
    ensures ListsOK(s)
  {
  }

  predicate SameWaiters(s: State, s': State) {
    && s'.waitingToReceive == s.waitingToReceive && s'.waitingToSend == s.waitingToSend
    && s'.wokenReceivers == s.wokenReceivers && s'.wokenSenders == s.wokenSenders
  }

  /** Only the lists and the woken tasks matter. */
  lemma SameTasks()
    ensures forall s: State, s': State {:trigger Pending(s), Pending(s')} ::
              SameWaiters(s, s') ==> Pending(s') == Pending(s)
  {
  }

  /** Waking a task makes it one of the woken. */
  lemma WakeTasks()
    ensures forall s: State :: Pending(s.WakeReceiver()) == Pending(s) == Pending(s.WakeSender())
  {
    forall s: State
      ensures Pending(s.WakeReceiver()) == Pending(s) == Pending(s.WakeSender())
    {
      DropElements(s.waitingToReceive, if s.waitingToReceive == [] then 0 else 1);
      DropElements(s.waitingToSend, if s.waitingToSend == [] then 0 else 1);
    }
  }

  lemma LookTasks(s: State, t: Task)
    requires t !in s.waitingToReceive && t !in s.waitingToSend
    ensures t !in s.wokenReceivers ==> Pending(s.(wokenSenders := s.wokenSenders - {t})) == Pending(s) - {t}
    ensures t !in s.wokenSenders ==> Pending(s.(wokenReceivers := s.wokenReceivers - {t})) == Pending(s) - {t}
  {
  }

  lemma TimeOutTasks(s: State, t: Task)
    requires ListsOK(s) && Enabled(s, TimeOut(t))
    ensures Pending(Next(s, TimeOut(t))) == Pending(s) - {t}
  {
    WithoutElements(s.waitingToReceive, t);
    WithoutElements(s.waitingToSend, t);
  }

  lemma EnlistTasks(s: State, p: nat)
    requires Enabled(s, Enlist(p))
    ensures Pending(AfterEnlist(s, p)) == Pending(s) + {s.locker.task}
  {
    EnlistElements(s.Waiters(s.locker.want), p, s.locker.task);
  }

  lemma UnlockTasks(s: State)
    ensures Pending(AfterUnlockTx(s)) == Pending(s) == Pending(AfterUnlockRx(s))
  {
    DropElements(s.waitingToReceive, Min(Positive(s.txLock), |s.waitingToReceive|));
    DropElements(s.waitingToSend, Min(Positive(s.rxLock), |s.waitingToSend|));
  }

  lemma EnlistElements(s: seq<Task>, p: nat, t: Task)
    requires p <= |s|
    ensures forall x :: x in s[..p] + [t] + s[p..] <==> x in s || x == t
  {
    assert s == s[..p] + s[p..];
  }

  lemma DropElements(s: seq<Task>, n: nat)
    requires n <= |s|
    ensures forall x :: x in s <==> x in s[n..] || x in First(s, n)
    ensures n == 1 ==> First(s, n) == {s[0]}
  {
    assert s == s[..n] + s[n..];
    forall x | x in s[..n]
      ensures x in First(s, n)
    {
      var i :| 0 <= i < n && s[i] == x;
    }
  }

  /** Between locking and unlocking a task goes on to block exactly if its time is not up and the queue is of no use to
      it. */
  lemma ChecksDecide(s: State, expired: bool)
    ensures Enabled(s, CheckTimeOut(expired)) ==> (Enabled(Next(s, CheckTimeOut(expired)), CheckQueue) <==> !expired)
    ensures Enabled(s, CheckQueue) ==>
              (Enabled(Next(s, CheckQueue), Enlist(0)) <==>
                 if s.locker.want.ToReceive? then s.messages == 0 else s.messages >= s.length)
  {
  }

  /** The first waiter has been woken, if there was one and there was cause to. */
  ghost predicate FirstWoken(cause: bool, waiting: seq<Task>, woken: set<Task>, waiting': seq<Task>,
                             woken': set<Task>) {
    if cause && waiting != [] then waiting' == waiting[1..] && woken' == woken + {waiting[0]}
    else waiting' == waiting && woken' == woken
  }

  /** The members of `Queue_t` that the protocol uses, and the bodies of its steps. */
  class Queue {
    const length: nat
    var messagesWaiting: nat
    var txLock: int
    var rxLock: int
    var tasksWaitingToReceive: seq<Task>
    var tasksWaitingToSend: seq<Task>

    ghost var wokenReceivers: set<Task>
    ghost var wokenSenders: set<Task>
    ghost var locker: Locker

    ghost function View(): State
      reads this
    {
      State(length, messagesWaiting, txLock, rxLock, tasksWaitingToReceive, tasksWaitingToSend, wokenReceivers,
          wokenSenders, locker)
    }

    /** `xTaskRemoveFromEventList` on the tasks waiting to receive. */
    method RemoveReceiver()
      requires tasksWaitingToReceive != []
      modifies this`tasksWaitingToReceive, this`wokenReceivers
      ensures View() == old(View()).WakeReceiver()
    {
      wokenReceivers := wokenReceivers + {tasksWaitingToReceive[0]};
      tasksWaitingToReceive := tasksWaitingToReceive[1..];
    }

    /** `xTaskRemoveFromEventList` on the tasks waiting to send. */
    method RemoveSender()
      requires tasksWaitingToSend != []
      modifies this`tasksWaitingToSend, this`wokenSenders
      ensures View() == old(View()).WakeSender()
    {
      wokenSenders := wokenSenders + {tasksWaitingToSend[0]};
      tasksWaitingToSend := tasksWaitingToSend[1..];
    }

    /** `xQueueGenericSendFromISR`. */
    method SendFromISR(overwrite: bool) returns (sent: bool)
      requires Enabled(View(), Step.SendFromISR(overwrite)) && messagesWaiting <= length
      modifies this`messagesWaiting, this`txLock, this`tasksWaitingToReceive, this`wokenReceivers
      ensures View() == Next(old(View()), Step.SendFromISR(overwrite))
      ensures sent == (old(messagesWaiting) < length || overwrite)
      ensures messagesWaiting == if old(messagesWaiting) < length then old(messagesWaiting) + 1
                else old(messagesWaiting)
      ensures txLock == if !sent || old(txLock) == UNLOCKED then old(txLock)
                        else if old(txLock) == MAX_BASE then -MAX_BASE - 1 else old(txLock) + 1
      ensures FirstWoken(sent && old(txLock) == UNLOCKED, old(tasksWaitingToReceive), old(wokenReceivers),
                         tasksWaitingToReceive, wokenReceivers)
    {
      sent := messagesWaiting < length || overwrite;
      if sent {
        if messagesWaiting < length {
          messagesWaiting := messagesWaiting + 1;
        }
        if txLock == UNLOCKED {
          if tasksWaitingToReceive != [] {
            RemoveReceiver();
          }
        } else {
          txLock := Increment(txLock);
        }
      }
    }

    /** `xQueueReceiveFromISR`. */
    method ReceiveFromISR() returns (received: bool)
      modifies this`messagesWaiting, this`rxLock, this`tasksWaitingToSend, this`wokenSenders
      ensures View() == Next(old(View()), Step.ReceiveFromISR) && received == (old(messagesWaiting) > 0)
      ensures messagesWaiting == if received then old(messagesWaiting) - 1 else old(messagesWaiting)
      ensures rxLock == if !received || old(rxLock) == UNLOCKED then old(rxLock)
                        else if old(rxLock) == MAX_BASE then -MAX_BASE - 1 else old(rxLock) + 1
      ensures FirstWoken(received && old(rxLock) == UNLOCKED, old(tasksWaitingToSend), old(wokenSenders),
                         tasksWaitingToSend, wokenSenders)
    {
      received := messagesWaiting > 0;
      if received {
        messagesWaiting := messagesWaiting - 1;
        if rxLock == UNLOCKED {
          if tasksWaitingToSend != [] {
            RemoveSender();
          }
        } else {
          rxLock := Increment(rxLock);
        }
      }
    }

    /** The critical section at the head of the loop of `xQueueGenericSend`. */
    method TrySend(t: Task, overwrite: bool) returns (sent: bool)
      requires Enabled(View(), Send(t, overwrite)) && messagesWaiting <= length
      modifies this`messagesWaiting, this`tasksWaitingToReceive, this`wokenReceivers, this`wokenSenders
      ensures View() == Next(old(View()), Send(t, overwrite)) && sent == (old(messagesWaiting) < length || overwrite)
      ensures messagesWaiting == if old(messagesWaiting) < length then old(messagesWaiting) + 1
                else old(messagesWaiting)
      ensures FirstWoken(sent, old(tasksWaitingToReceive), old(wokenReceivers), tasksWaitingToReceive, wokenReceivers)
      ensures wokenSenders == old(wokenSenders) - {t}
    {
      wokenSenders := wokenSenders - {t};
      sent := messagesWaiting < length || overwrite;
      if sent {
        if messagesWaiting < length {
          messagesWaiting := messagesWaiting + 1;
        }
        if tasksWaitingToReceive != [] {
          RemoveReceiver();
        }
      }
    }

    /** The critical section at the head of the loop of `xQueueGenericReceive`. */
    method TryReceive(t: Task, justPeeking: bool) returns (received: bool)
      requires Enabled(View(), Receive(t, justPeeking))
      modifies this`messagesWaiting, this`tasksWaitingToReceive, this`tasksWaitingToSend, this`wokenReceivers,
          this`wokenSenders
      ensures View() == Next(old(View()), Receive(t, justPeeking)) && received == (old(messagesWaiting) > 0)
      ensures messagesWaiting == if received && !justPeeking then old(messagesWaiting) - 1 else old(messagesWaiting)
      ensures FirstWoken(received && !justPeeking, old(tasksWaitingToSend), old(wokenSenders),
                         tasksWaitingToSend, wokenSenders)
      ensures FirstWoken(received && justPeeking, old(tasksWaitingToReceive), old(wokenReceivers) - {t},
                         tasksWaitingToReceive, wokenReceivers)
    {
      wokenReceivers := wokenReceivers - {t};
      received := messagesWaiting > 0;
      if received {
        if !justPeeking {
          messagesWaiting := messagesWaiting - 1;
          if tasksWaitingToSend != [] {
            RemoveSender();
          }
        } else {
          if tasksWaitingToReceive != [] {
            RemoveReceiver();
          }
        }
      }
    }

    /** `prvLockQueue`. */
    method LockQueue()
      requires Enabled(View(), Lock)
      modifies this`txLock, this`rxLock, this`locker
      ensures View() == Next(old(View()), Lock) && locker == old(locker).(stage := Locked)
      ensures rxLock == (if old(rxLock) == UNLOCKED then LOCKED_UNMODIFIED else old(rxLock))
      ensures txLock == (if old(txLock) == UNLOCKED then LOCKED_UNMODIFIED else old(txLock))
    {
      if rxLock == UNLOCKED {
        rxLock := LOCKED_UNMODIFIED;
      }
      if txLock == UNLOCKED {
        txLock := LOCKED_UNMODIFIED;
      }
      locker := locker.(stage := Locked);
    }

    /** The first critical section of `prvUnlockQueue`. */
    method UnlockPosts()
      requires Enabled(View(), UnlockTx)
      modifies this`txLock, this`tasksWaitingToReceive, this`wokenReceivers, this`locker
      ensures View() == Next(old(View()), UnlockTx) && txLock == UNLOCKED
           && locker == old(locker).(stage := HalfUnlocked)
      ensures var waiting := old(tasksWaitingToReceive);
              var n := if old(txLock) <= 0 then 0 else if old(txLock) < |waiting| then old(txLock) else |waiting|;
              tasksWaitingToReceive == waiting[n..] && wokenReceivers == old(wokenReceivers) + First(waiting, n)
    {
      ghost var waiting, k := tasksWaitingToReceive, 0;
      while txLock > LOCKED_UNMODIFIED
        invariant 0 <= k <= |waiting| && tasksWaitingToReceive == waiting[k..]
        invariant wokenReceivers == old(wokenReceivers) + First(waiting, k)
        invariant txLock == old(txLock) - k && (k > 0 ==> txLock >= 0) && locker == old(locker)
        decreases txLock
      {
        if tasksWaitingToReceive != [] {
          RemoveReceiver();
          k := k + 1;
          assert First(waiting, k) == First(waiting, k - 1) + {waiting[k - 1]};
        } else {
          break;
        }
        txLock := txLock - 1;
      }
      assert k == Min(Positive(old(txLock)), |waiting|);
      txLock := UNLOCKED;
      locker := locker.(stage := HalfUnlocked);
    }

    /** The second critical section of `prvUnlockQueue`. */
    method UnlockRemovals()
      requires Enabled(View(), UnlockRx)
      modifies this`rxLock, this`tasksWaitingToSend, this`wokenSenders, this`locker
      ensures View() == Next(old(View()), UnlockRx) && rxLock == UNLOCKED
           && locker == old(locker).(stage := Unlocked)
      ensures var waiting := old(tasksWaitingToSend);
              var n := if old(rxLock) <= 0 then 0 else if old(rxLock) < |waiting| then old(rxLock) else |waiting|;
              tasksWaitingToSend == waiting[n..] && wokenSenders == old(wokenSenders) + First(waiting, n)
    {
      ghost var waiting, k := tasksWaitingToSend, 0;
      while rxLock > LOCKED_UNMODIFIED
        invariant 0 <= k <= |waiting| && tasksWaitingToSend == waiting[k..]
        invariant wokenSenders == old(wokenSenders) + First(waiting, k)
        invariant rxLock == old(rxLock) - k && (k > 0 ==> rxLock >= 0) && locker == old(locker)
        decreases rxLock
      {
        if tasksWaitingToSend != [] {
          RemoveSender();
          k := k + 1;
          assert First(waiting, k) == First(waiting, k - 1) + {waiting[k - 1]};
          rxLock := rxLock - 1;
        } else {
          break;
        }
      }
      assert k == Min(Positive(old(rxLock)), |waiting|);
      rxLock := UNLOCKED;
      locker := locker.(stage := Unlocked);
    }
  }
}
