/** Queue sets: a queue of the handles of those members that hold something to receive. */
module QueueSets {
  import opened Common
  import opened Sums
  import opened QueueLock

  type Member = nat

  /** What a queue set needs of a member `Queue_t`. `selections` counts the selections of this
      member that have not led to a receive yet. */
  datatype MemberQueue = MemberQueue(messages: nat, length: nat, txLock: int, selections: nat)

  type Members = map<Member, MemberQueue>

  ghost function LengthOf(members: Members): map<nat, nat> {
    map m | m in members :: members[m].length
  }

  /** Every message of a member is accounted for once: by its handle in the set, by a selection not yet used,
      or by the lock count that will become handles when the member is unlocked. */
  ghost predicate Conserved(contents: seq<Member>, members: Members) {
    && (forall m :: m in contents ==> m in members)
    && (forall m :: m in members ==>
          && members[m].messages <= members[m].length && -1 <= members[m].txLock <= MAX_BASE
          && multiset(contents)[m] + members[m].selections + Positive(members[m].txLock) == members[m].messages)
  }

  predicate Empty(q: MemberQueue) {
    q.messages == 0 && q.txLock == UNLOCKED && q.selections == 0
  }

  /** The set is at least as long as its members together, which its documentation demands. */
  ghost predicate Roomy(members: Members, length: nat) {
    Sum(LengthOf(members)) <= length
  }

  /** While a member's handles in the set fall short of its length the set has room, so the assertion of
      `prvNotifyQueueSetContainer` never fires. */
  lemma SetHasRoom(contents: seq<Member>, members: Members, length: nat, m: Member)
    requires Conserved(contents, members) && Roomy(members, length) && m in members
         && multiset(contents)[m] < members[m].length
    ensures |contents| < length
  {
    var lengths := LengthOf(members);
    var short := lengths[m := lengths[m] - 1];
    SumUpdate(lengths, m, lengths[m] - 1);
    OccurrencesBound(contents, short);
  }

  /** A handle in the set, or selected and not yet used, names a member that is not empty. */
  lemma SelectedNotEmpty(contents: seq<Member>, members: Members, m: Member)
    requires Conserved(contents, members) && m in members && (m in contents || members[m].selections > 0)
    ensures members[m].messages > 0
  {
  }

  /** One message more in a member, and one handle more in the set or one more owed by the lock count. */
  lemma PostConserved(contents: seq<Member>, members: Members, m: Member, contents': seq<Member>, q: MemberQueue)
    requires Conserved(contents, members) && m in members
    requires members[m].messages < members[m].length && q.length == members[m].length
         && q.selections == members[m].selections
    requires q.messages == members[m].messages + 1
    requires || (contents' in {contents + [m], [m] + contents} && q.txLock == members[m].txLock)
             || (contents' == contents && q.txLock == members[m].txLock + 1 && 0 < q.txLock <= MAX_BASE)
    ensures Conserved(contents', members[m := q])
  {
    assert multiset(contents + [m]) == multiset(contents) + multiset{m};
    assert multiset([m] + contents) == multiset{m} + multiset(contents);
  }

  /** A handle that unlocking puts in the set is one less that the lock count owes. */
  lemma RepayConserved(contents: seq<Member>, members: Members, m: Member, q: MemberQueue)
    requires Conserved(contents, members) && m in members && members[m].txLock > 0
    requires q == members[m].(txLock := members[m].txLock - 1)
    ensures Conserved(contents + [m], members[m := q])
  {
    assert multiset(contents + [m]) == multiset(contents) + multiset{m};
  }

  lemma RoomToRepay(contents: seq<Member>, members: Members, length: nat, m: Member)
    requires Conserved(contents, members) && Roomy(members, length) && m in members && members[m].txLock > 0
    ensures |contents| < length
  {
    SetHasRoom(contents, members, length, m);
  }

  lemma Unowed(contents: seq<Member>, members: Members, m: Member)
    requires Conserved(contents, members) && m in members && members[m].txLock <= 0
    ensures Conserved(contents, members[m := members[m].(txLock := UNLOCKED)])
  {
    SameCountConserved(contents, members, m, members[m].(txLock := UNLOCKED));
  }

  /** The set with the handle of its first member taken off; that member is not empty. */
  lemma SelectConserved(contents: seq<Member>, members: Members, m: Member)
    requires Conserved(contents, members) && contents != [] && m == contents[0]
    ensures m in members && members[m].messages > 0 && [m] + contents[1..] == contents
    ensures Conserved(contents[1..], members[m := members[m].(selections := members[m].selections + 1)])
  {
    assert m in contents;
    SelectedNotEmpty(contents, members, m);
    var members' := members[m := members[m].(selections := members[m].selections + 1)];
    assert contents == [m] + contents[1..];
    assert multiset(contents) == multiset{m} + multiset(contents[1..]);
  }

  lemma SameCountConserved(contents: seq<Member>, members: Members, m: Member, q: MemberQueue)
    requires Conserved(contents, members) && m in members && q.length == members[m].length
    requires q.messages <= q.length && -1 <= q.txLock <= MAX_BASE
    requires q.messages - q.selections - Positive(q.txLock) == members[m].messages - members[m].selections
              - Positive(members[m].txLock)
    ensures Conserved(contents, members[m := q])
  {
  }

  lemma AddedConserved(contents: seq<Member>, members: Members, m: Member, q: MemberQueue)
    requires Conserved(contents, members) && m !in members && q.messages == 0 && q.selections == 0
         && q.txLock == UNLOCKED
    ensures Conserved(contents, members[m := q])
    ensures Sum(LengthOf(members[m := q])) == Sum(LengthOf(members)) + q.length
  {
    var lengths := LengthOf(members[m := q]);
    SumWithout(lengths, m);
    assert lengths - {m} == LengthOf(members);
    assert m !in contents;
  }

  lemma RemovedConserved(contents: seq<Member>, members: Members, m: Member)
    requires Conserved(contents, members) && m in members && members[m].messages == 0
    ensures Conserved(contents, members - {m})
    ensures Sum(LengthOf(members)) == Sum(LengthOf(members - {m})) + members[m].length
  {
    SumWithout(LengthOf(members), m);
    assert LengthOf(members) - {m} == LengthOf(members - {m});
  }

  /** What a member holds does not matter to the length the set needs. */
  lemma StillRoomy(members: Members, length: nat, m: Member, q: MemberQueue)
    requires m in members && q.length == members[m].length
    ensures Roomy(members[m := q], length) <==> Roomy(members, length)
  {
    assert LengthOf(members[m := q]) == LengthOf(members);
  }

  /** The members after one post, and after several. */
  function WithPost(members: Members, m: Member): Members
    requires m in members
  {
    members[m := members[m].(messages := members[m].messages + 1)]
  }

  function WithPosts(members: Members, posts: seq<Member>): Members {
    if posts == [] then members
    else
      var before, m := WithPosts(members, posts[..|posts| - 1]), posts[|posts| - 1];
      if m in before then WithPost(before, m) else before
  }

  lemma NoPosts(members: Members)
    ensures WithPosts(members, []) == members
  {
  }

  lemma OneMorePost(members: Members, posts: seq<Member>, m: Member)
    requires m in WithPosts(members, posts)
    ensures WithPosts(members, posts + [m]) == WithPost(WithPosts(members, posts), m)
  {
    assert (posts + [m])[..|posts|] == posts;
  }

  /** Nothing selected, and nothing owed by a lock count: every message has its handle in the set. */
  predicate AllPosted(members: Members) {
    forall q :: q in members ==> members[q].txLock == UNLOCKED && members[q].selections == 0
  }

  lemma PostedToo(members: Members, m: Member)
    requires AllPosted(members) && m in members
    ensures members[m].txLock == UNLOCKED && AllPosted(WithPost(members, m))
  {
  }

  lemma NotAllFilled(contents: seq<Member>, members: Members, length: nat)
    requires Conserved(contents, members) && !Roomy(members, length) && |contents| <= length && AllPosted(members)
    ensures exists m :: m in members && members[m].messages < members[m].length
  {
    if forall q :: q in members ==> members[q].messages == members[q].length {
      OccurrencesCover(contents, LengthOf(members));
    }
  }

  lemma NothingListed(contents: seq<Member>, members: Members)
    requires Conserved(contents, members) && forall q :: q in members ==> Empty(members[q])
    ensures contents == []
  {
    SomeElement(contents);
  }

  class QueueSet {
    const length: nat
    var contents: seq<Member>
    var members: Members

    ghost predicate Valid()
      reads this
    {
      Conserved(contents, members)
    }

    /** `xQueueCreateSet`. */
    constructor (eventQueueLength: nat)
      ensures Valid() && members == map[] && contents == [] && length == eventQueueLength
    {
      length := eventQueueLength;
      contents, members := [], map[];
    }

    /** `xQueueAddToSet`, of a queue in no other set. */
    method AddToSet(m: Member, messages: nat, queueLength: nat) returns (passed: bool)
      requires Valid() && messages <= queueLength
      modifies this`members
      ensures Valid() && passed == (m !in old(members) && messages == 0)
      ensures members == if passed then old(members)[m := MemberQueue(0, queueLength, UNLOCKED, 0)] else old(members)
      ensures passed ==> (Roomy(members, length) <==> Sum(LengthOf(old(members))) + queueLength <= length)
    {
      passed := m !in members && messages == 0;
      if passed {
        AddedConserved(contents, members, m, MemberQueue(0, queueLength, UNLOCKED, 0));
        members := members[m := MemberQueue(0, queueLength, UNLOCKED, 0)];
      }
    }

    /** `xQueueRemoveFromSet`. */
    method RemoveFromSet(m: Member) returns (passed: bool)
      requires Valid()
      modifies this`members
      ensures Valid() && passed == (m in old(members) && old(members)[m].messages == 0)
      ensures members == if passed then old(members) - {m} else old(members)
      ensures Roomy(old(members), length) ==> Roomy(members, length)
    {
      passed := m in members && members[m].messages == 0;
      if passed {
        RemovedConserved(contents, members, m);
        members := members - {m};
      }
    }

    /** `prvNotifyQueueSetContainer`, whose assertion is the precondition. */
    method NotifyQueueSetContainer(m: Member, toFront: bool)
      requires |contents| < length
      modifies this`contents
      ensures contents == if toFront then [m] + old(contents) else old(contents) + [m]
    {
      if |contents| < length {
        contents := if toFront then [m] + contents else contents + [m];
      }
    }

    /** `xQueueGenericSend` to a member. There must be room in the set, which there always is if it is long enough. */
    method Send(m: Member, toFront: bool) returns (sent: bool)
      requires Valid() && m in members && members[m].txLock == UNLOCKED
      requires members[m].messages < members[m].length ==> Roomy(members, length) || |contents| < length
      modifies this`members, this`contents
      ensures Valid() && (Roomy(old(members), length) <==> Roomy(members, length))
                  && sent == (old(members)[m].messages < old(members)[m].length)
      ensures !sent ==> contents == old(contents) && members == old(members)
      ensures sent ==>
                && contents == (if toFront then [m] + old(contents) else old(contents) + [m])
                && members == WithPost(old(members), m)
    {
      var q := members[m];
      sent := q.messages < q.length;
      if sent {
        if Roomy(members, length) {
          SetHasRoom(contents, members, length, m);
        }
        members := members[m := q.(messages := q.messages + 1)];
        NotifyQueueSetContainer(m, toFront);
        PostConserved(old(contents), old(members), m, contents, members[m]);
        StillRoomy(old(members), length, m, members[m]);
      }
    }

    /** `xQueueGenericSendFromISR` to a member. The 128th post to a locked member wraps its lock count, and a handle is
        then owed that unlocking will not pay. */
    method SendFromISR(m: Member, toFront: bool) returns (sent: bool)
      requires Valid() && m in members
      requires members[m].messages < members[m].length && members[m].txLock == UNLOCKED ==>
                 Roomy(members, length) || |contents| < length
      modifies this`members, this`contents
      ensures Valid() <==> !(sent && old(members)[m].txLock == MAX_BASE)
      ensures (Roomy(old(members), length) <==> Roomy(members, length))
      ensures sent == (old(members)[m].messages < old(members)[m].length)
      ensures !sent ==> contents == old(contents) && members == old(members)
      ensures sent && old(members)[m].txLock == UNLOCKED ==>
                && contents == (if toFront then [m] + old(contents) else old(contents) + [m])
                && members == WithPost(old(members), m)
      ensures sent && old(members)[m].txLock != UNLOCKED ==>
                && contents == old(contents)
                && members == old(members)[m := old(members)[m].(messages := old(members)[m].messages + 1,
                                                                txLock := Increment(old(members)[m].txLock))]
    {
      var q := members[m];
      sent := q.messages < q.length;
      if sent {
        if q.txLock == UNLOCKED {
          if Roomy(members, length) {
            SetHasRoom(contents, members, length, m);
          }
          members := members[m := q.(messages := q.messages + 1)];
          NotifyQueueSetContainer(m, toFront);
        } else {
          members := members[m := q.(messages := q.messages + 1, txLock := Increment(q.txLock))];
        }
        if q.txLock != MAX_BASE {
          PostConserved(old(contents), old(members), m, contents, members[m]);
        }
        StillRoomy(old(members), length, m, members[m]);
      }
    }

    /** The part of `prvLockQueue` that concerns posts. */
    method LockQueue(m: Member)
      requires Valid() && m in members
      modifies this`members
      ensures Valid()
      ensures members == if old(members)[m].txLock == UNLOCKED then old(members)[m := old(members)[m].(txLock := 0)]
                else old(members)
    {
      if members[m].txLock == UNLOCKED {
        SameCountConserved(contents, members, m, members[m].(txLock := 0));
        members := members[m := members[m].(txLock := 0)];
      }
    }

    /** The part of `prvUnlockQueue` that concerns posts: one handle for each of them. */
    method UnlockQueue(m: Member)
      requires Valid() && m in members
      requires Roomy(members, length) || |contents| + Positive(members[m].txLock) <= length
      modifies this`members, this`contents
      ensures Valid() && (Roomy(old(members), length) <==> Roomy(members, length))
      ensures members == old(members)[m := old(members)[m].(txLock := UNLOCKED)]
      ensures contents == old(contents) + seq(Positive(old(members)[m].txLock), _ => m)
    {
      hide Conserved;
      ghost var tx, k := members[m].txLock, 0;
      assert members == old(members)[m := old(members)[m].(txLock := tx)];
      while members[m].txLock > 0
        invariant Valid() && (Roomy(old(members), length) <==> Roomy(members, length))
        invariant Roomy(members, length) || |contents| + Positive(tx) <= length
        invariant 0 <= k && k + Positive(tx) == Positive(old(members)[m].txLock)
        invariant m in members && members == old(members)[m := old(members)[m].(txLock := tx)]
        invariant contents == old(contents) + seq(k, _ => m)
        decreases members[m].txLock
      {
        if Roomy(members, length) {
          RoomToRepay(contents, members, length, m);
        }
        RepayConserved(contents, members, m, members[m].(txLock := members[m].txLock - 1));
        StillRoomy(members, length, m, members[m].(txLock := members[m].txLock - 1));
        NotifyQueueSetContainer(m, false);
        members := members[m := members[m].(txLock := members[m].txLock - 1)];
        assert seq(k, _ => m) + [m] == seq(k + 1, _ => m);
        tx, k := tx - 1, k + 1;
      }
      Unowed(contents, members, m);
      StillRoomy(members, length, m, members[m].(txLock := UNLOCKED));
      members := members[m := members[m].(txLock := UNLOCKED)];
    }

    /** `xQueueSelectFromSet`: the member it names has something to receive. */
    method SelectFromSet() returns (found: bool, m: Member)
      requires Valid()
      modifies this`members, this`contents
      ensures Valid() && found == (old(contents) != [])
      ensures !found ==> contents == old(contents) && members == old(members)
      ensures found ==>
                && [m] + contents == old(contents) && m in old(members) && old(members)[m].messages > 0
                && members == old(members)[m := old(members)[m].(selections := old(members)[m].selections + 1)]
    {
      hide Conserved;
      found, m := contents != [], 0;
      if found {
        m := contents[0];
        SelectConserved(contents, members, m);
        var q := members[m];
        contents, members := contents[1..], members[m := q.(selections := q.selections + 1)];
      }
    }

    /** `xQueueGenericReceive` from a member that was selected, which therefore never finds it empty. */
    method Receive(m: Member) returns (received: bool)
      requires Valid() && m in members && members[m].selections > 0
      modifies this`members
      ensures Valid() && received
      ensures members == old(members)[m := old(members)[m].(messages := old(members)[m].messages - 1,
                selections := old(members)[m].selections - 1)]
    {
      SelectedNotEmpty(contents, members, m);
      received := members[m].messages > 0;
      if received {
        var q := members[m];
        SameCountConserved(contents, members, m, q.(messages := q.messages - 1, selections := q.selections - 1));
        members := members[m := q.(messages := q.messages - 1, selections := q.selections - 1)];
      }
    }

    /** A set that is too short can be filled by posts while some member is not full: the next post to that one finds
        no room in the set. */
    method FillShort() returns (posts: seq<Member>, m: Member)
      requires Valid() && !Roomy(members, length) && forall q :: q in members ==> Empty(members[q])
      modifies this`members, this`contents
      ensures Valid() && contents == posts && |contents| == length && members == WithPosts(old(members), posts)
      ensures m in members && members[m].messages < members[m].length && members[m].txLock == UNLOCKED
    {
      NothingListed(contents, members);
      NoPosts(members);
      hide Conserved, WithPosts, Roomy, WithPost;
      posts := [];
      while |contents| < length
        invariant Valid() && !Roomy(members, length) && AllPosted(members) && |contents| <= length
        invariant contents == posts && members == WithPosts(old(members), posts)
        decreases length - |contents|
      {
        m := PostUnfilled();
        OneMorePost(old(members), posts, m);
        posts := posts + [m];
      }
      NotAllFilled(contents, members, length);
      m :| m in members && members[m].messages < members[m].length;
    }

    /** One of those posts. */
    method PostUnfilled() returns (m: Member)
      requires Valid() && !Roomy(members, length) && AllPosted(members) && |contents| < length
      modifies this`members, this`contents
      ensures Valid() && !Roomy(members, length) && AllPosted(members) && contents == old(contents) + [m]
      ensures m in old(members) && members == WithPost(old(members), m)
    {
      NotAllFilled(contents, members, length);
      m :| m in members && members[m].messages < members[m].length;
      PostedToo(members, m);
      hide Conserved, Roomy, AllPosted, WithPost;
      var sent := Send(m, false);
    }
  }
}
