/** Event groups: tasks that wait for any or all of some bits, woken together when the bits are set, with
    the clearing of bits put off until all of them have been woken. */
module EventGroups {
  import opened Common

  /** `EventBits_t` and the values of event items, as the set of the places of the bits that are one. */
  type Bits = set<nat>

  /** The first of the eight control bits: bit 8 with configUSE_16_BIT_TICKS set, bit 24 otherwise. */
  type ControlByte = n: nat | n == 8 || n == 24 witness 8
  const CONTROL: ControlByte

  const CLEAR_EVENTS_ON_EXIT: nat := CONTROL
  const UNBLOCKED_DUE_TO_BIT_SET: nat := CONTROL + 1
  const WAIT_FOR_ALL: nat := CONTROL + 2
  const ITEM_VALUE_IN_USE: nat := CONTROL + 7

  /** eventEVENT_BITS_CONTROL_BYTES. */
  const CONTROL_BYTES: Bits := set b | CONTROL <= b < CONTROL + 8

  /** `prvTestWaitCondition`. */
  predicate TestWaitCondition(current: Bits, waitFor: Bits, all: bool) {
    if !all then current * waitFor != {} else current * waitFor == waitFor
  }

  /** The condition recorded in the value of a waiter's event item. */
  predicate Satisfied(current: Bits, value: Bits) {
    TestWaitCondition(current, value - CONTROL_BYTES, WAIT_FOR_ALL in value)
  }

  /** A waiter is satisfied when it waits for all of its bits and all are set, or for any and one is. */
  lemma ConditionMeans(current: Bits, value: Bits)
    ensures Satisfied(current, value) <==>
              if WAIT_FOR_ALL in value then forall b :: b in value && b !in CONTROL_BYTES ==> b in current
              else exists b :: b in value && b !in CONTROL_BYTES && b in current
  {
    var waitFor := value - CONTROL_BYTES;
    assert current * waitFor == waitFor <==> forall b :: b in waitFor ==> b in current;
    assert current * waitFor != {} <==> exists b :: b in current * waitFor;
    assert forall b :: b in current * waitFor <==> b in value && b !in CONTROL_BYTES && b in current;
  }

  /** Clearing bits satisfies nobody who waits for something. */
  lemma ClearingSatisfiesNone(current: Bits, clear: Bits, value: Bits)
    requires !Satisfied(current, value)
    ensures !Satisfied(current - clear, value)
  {
    ConditionMeans(current, value);
    ConditionMeans(current - clear, value);
  }

  type Values = map<Task, Bits>

  predicate Leaves(current: Bits, values: Values, t: Task) {
    t in values && Satisfied(current, values[t])
  }

  /** The bits to clear when the waiters satisfied by `current` leave. */
  function ToClear(waiters: seq<Task>, values: Values, current: Bits): Bits {
    if waiters == [] then {}
    else
      var rest, t := ToClear(waiters[..|waiters| - 1], values, current), waiters[|waiters| - 1];
      if Leaves(current, values, t) && CLEAR_EVENTS_ON_EXIT in values[t] then rest + (values[t] - CONTROL_BYTES)
          else rest
  }

  /** The waiters that `current` does not satisfy, in their order. */
  function Staying(waiters: seq<Task>, values: Values, current: Bits): (rest: seq<Task>)
    ensures forall t :: t in rest <==> t in waiters && !Leaves(current, values, t)
  {
    if waiters == [] then []
    else
      var rest, t := Staying(waiters[..|waiters| - 1], values, current), waiters[|waiters| - 1];
      if Leaves(current, values, t) then rest else rest + [t]
  }

  /** A bit is cleared exactly when some satisfied waiter asked for it to be. */
  lemma {:induction false} ToClearMeans(waiters: seq<Task>, values: Values, current: Bits, b: nat)
    ensures b in ToClear(waiters, values, current) <==>
              exists t ::
                  t in waiters && Leaves(current, values, t) && CLEAR_EVENTS_ON_EXIT in values[t]
                      && b in values[t] - CONTROL_BYTES
  {
    if waiters != [] {
      var front, last := waiters[..|waiters| - 1], waiters[|waiters| - 1];
      ToClearMeans(front, values, current, b);
      assert waiters == front + [last];
    }
  }

  /** The order of the list of waiters decides neither who is woken nor which bits are left. */
  lemma OrderIrrelevant(waiters: seq<Task>, waiters': seq<Task>, values: Values, current: Bits)
    requires forall t :: t in waiters <==> t in waiters'
    ensures ToClear(waiters, values, current) == ToClear(waiters', values, current)
    ensures forall t :: t in Staying(waiters, values, current) <==> t in Staying(waiters', values, current)
  {
    forall b
      ensures b in ToClear(waiters, values, current) <==> b in ToClear(waiters', values, current)
    {
      ToClearMeans(waiters, values, current, b);
      ToClearMeans(waiters', values, current, b);
    }
  }

  /** The event item value with which a satisfied waiter is woken. */
  function Delivered(current: Bits): Bits {
    current + {UNBLOCKED_DUE_TO_BIT_SET} + {ITEM_VALUE_IN_USE}
  }

  /** What a woken waiter returns: the bits that satisfied it, before any of them were cleared. */
  lemma DeliveredSatisfies(current: Bits, value: Bits)
    requires current !! CONTROL_BYTES
    ensures UNBLOCKED_DUE_TO_BIT_SET in Delivered(current) && Delivered(current) - CONTROL_BYTES == current
    ensures Satisfied(Delivered(current) - CONTROL_BYTES, value) <==> Satisfied(current, value)
  {
    assert Delivered(current) - CONTROL_BYTES == current;
  }

  lemma {:induction false} StayingDistinct(waiters: seq<Task>, values: Values, current: Bits)
    requires Distinct(waiters)
    ensures Distinct(Staying(waiters, values, current))
  {
    if waiters != [] {
      StayingDistinct(waiters[..|waiters| - 1], values, current);
    }
  }

  /** How `xEventGroupSetBits` leaves the values of event items. */
  function ValuesAfter(waiters: seq<Task>, values: Values, current: Bits): Values {
    map t | t in values :: if t in waiters && Leaves(current, values, t) then Delivered(current) else values[t]
  }

  /** Those satisfied are woken with the bits, and those not wait on. */
  lemma SetBitsMeans(waiters: seq<Task>, values: Values, current: Bits)
    requires current !! CONTROL_BYTES && forall t :: t in waiters ==> t in values
    ensures var values' := ValuesAfter(waiters, values, current);
            values'.Keys == values.Keys && forall t :: t in waiters ==>
              && t in values'
              && if Satisfied(current, values[t]) then
                   && t !in Staying(waiters, values, current) && UNBLOCKED_DUE_TO_BIT_SET in values'[t]
                   && values'[t] - CONTROL_BYTES == current
                 else t in Staying(waiters, values, current) && values'[t] == values[t]
  {
    hide Satisfied;
    assert Delivered(current) - CONTROL_BYTES == current;
  }

  lemma StayingMore(waiters: seq<Task>, t: Task, values: Values, current: Bits)
    ensures Staying(waiters + [t], values, current)
              == Staying(waiters, values, current) + if Leaves(current, values, t) then [] else [t]
  {
    assert (waiters + [t])[..|waiters|] == waiters;
  }

  /** Those who stay are in the order in which they were. */
  lemma {:induction false} StayingInOrder(waiters: seq<Task>, more: seq<Task>, values: Values, current: Bits)
    ensures Staying(waiters + more, values, current)
              == Staying(waiters, values, current) + Staying(more, values, current)
  {
    if more == [] {
      assert waiters + more == waiters;
    } else {
      hide Staying, Leaves;
      var n := |more| - 1;
      var front, t := more[..n], more[n];
      assert more == front + [t] && waiters + more == waiters + front + [t];
      StayingInOrder(waiters, front, values, current);
      StayingMore(front, t, values, current);
      StayingMore(waiters + front, t, values, current);
      Associative(Staying(waiters, values, current), Staying(front, values, current),
                  if Leaves(current, values, t) then [] else [t]);
    }
  }

  lemma Associative(a: seq<Task>, b: seq<Task>, c: seq<Task>)
    ensures a + b + c == a + (b + c)
  {
  }

  /** `EventGroup_t`, with the values of the event items of its waiters and of those it has woken. */
  class EventGroup {
    var eventBits: Bits
    var tasksWaitingForBits: seq<Task>
    var itemValues: Values

    /** No waiter's condition holds for the bits as they are. */
    ghost predicate Valid()
      reads this
    {
      && eventBits !! CONTROL_BYTES && Distinct(tasksWaitingForBits)
      && forall t :: t in tasksWaitingForBits ==>
           t in itemValues && UNBLOCKED_DUE_TO_BIT_SET !in itemValues[t] && !Satisfied(eventBits, itemValues[t])
    }

    /** `xEventGroupCreate`. */
    constructor ()
      ensures Valid() && eventBits == {} && tasksWaitingForBits == []
    {
      eventBits, tasksWaitingForBits, itemValues := {}, [], map[];
    }

    /** `xEventGroupSetBits`. Every waiter whose condition the new bits satisfy is woken with those bits,
        wherever it stands in the list; only then are the bits cleared that any of them wanted cleared. */
    method SetBits(bitsToSet: Bits) returns (bits: Bits)
      requires Valid() && bitsToSet !! CONTROL_BYTES
      modifies this
      ensures Valid() && bits == eventBits
      ensures tasksWaitingForBits == Staying(old(tasksWaitingForBits), old(itemValues), old(eventBits) + bitsToSet)
      ensures eventBits == old(eventBits) + bitsToSet
                - ToClear(old(tasksWaitingForBits), old(itemValues), old(eventBits) + bitsToSet)
      ensures itemValues == ValuesAfter(old(tasksWaitingForBits), old(itemValues), old(eventBits) + bitsToSet)
      ensures itemValues.Keys == old(itemValues).Keys && forall t :: t in old(tasksWaitingForBits) ==>
                && t in itemValues
                && if Satisfied(old(eventBits) + bitsToSet, old(itemValues)[t]) then
                     && t !in tasksWaitingForBits && UNBLOCKED_DUE_TO_BIT_SET in itemValues[t]
                     && itemValues[t] - CONTROL_BYTES == old(eventBits) + bitsToSet
                   else t in tasksWaitingForBits && itemValues[t] == old(itemValues)[t]
    {
      hide ToClear, Staying, Leaves, ValuesAfter, TestWaitCondition, Satisfied, Distinct, Delivered;
      ghost var before, values := tasksWaitingForBits, itemValues;
      NoneYet(before, values, eventBits + bitsToSet);
      var bitsToClear: Bits := {};
      eventBits := eventBits + bitsToSet;
      ghost var current, k := eventBits, 0;
      var i := 0;
      while i < |tasksWaitingForBits|
        invariant k <= |before| && eventBits == current && i <= |tasksWaitingForBits|
        invariant tasksWaitingForBits == Staying(before[..k], values, current) + before[k..]
        invariant i == |Staying(before[..k], values, current)|
        invariant bitsToClear == ToClear(before[..k], values, current)
        invariant itemValues == ValuesAfter(before[..k], values, current)
        decreases |before| - k
      {
        OneMore(before, k, values, current);
        ListStep(Staying(before[..k], values, current), before, k, tasksWaitingForBits);
        i, bitsToClear := Visit(i, bitsToClear);
        k := k + 1;
      }
      eventBits := eventBits - bitsToClear;
      bits := eventBits;
      assert before[..k] == before;
      assert tasksWaitingForBits == Staying(before, values, current);
      StillUnsatisfied(before, values, current, bitsToClear);
      SetBitsMeans(before, values, current);
    }

    /** What the loop of `xEventGroupSetBits` does with the waiter at place `i`. */
    method Visit(i: nat, bitsToClear: Bits) returns (i': nat, bitsToClear': Bits)
      requires i < |tasksWaitingForBits| && tasksWaitingForBits[i] in itemValues
      modifies this`tasksWaitingForBits, this`itemValues
      ensures var t := old(tasksWaitingForBits)[i];
              var value := old(itemValues)[t];
              if Satisfied(eventBits, value) then
                && i' == i && tasksWaitingForBits == old(tasksWaitingForBits)[..i] + old(tasksWaitingForBits)[i + 1..]
                && bitsToClear' == (if CLEAR_EVENTS_ON_EXIT in value then bitsToClear + (value - CONTROL_BYTES)
                     else bitsToClear)
                && itemValues == old(itemValues)[t := Delivered(eventBits)]
              else
                && i' == i + 1 && bitsToClear' == bitsToClear
                && tasksWaitingForBits == old(tasksWaitingForBits) && itemValues == old(itemValues)
    {
      i', bitsToClear' := i, bitsToClear;
      var matchFound, bitsWaitedFor, controlBits := Matches(itemValues[tasksWaitingForBits[i]]);
      if matchFound {
        if CLEAR_EVENTS_ON_EXIT in controlBits {
          bitsToClear' := bitsToClear + bitsWaitedFor;
        }
        RemoveFromUnorderedEventList(i, eventBits + {UNBLOCKED_DUE_TO_BIT_SET});
      } else {
        i' := i + 1;
      }
    }

    /** The test that `xEventGroupSetBits` makes on each waiter. */
    method Matches(value: Bits) returns (matchFound: bool, bitsWaitedFor: Bits, controlBits: Bits)
      ensures matchFound == Satisfied(eventBits, value) && bitsWaitedFor == value - CONTROL_BYTES
      ensures CLEAR_EVENTS_ON_EXIT in controlBits <==> CLEAR_EVENTS_ON_EXIT in value
    {
      matchFound := false;
      controlBits := value * CONTROL_BYTES;
      bitsWaitedFor := value - CONTROL_BYTES;
      assert bitsWaitedFor * eventBits == eventBits * bitsWaitedFor;
      if WAIT_FOR_ALL !in controlBits {
        if bitsWaitedFor * eventBits != {} {
          matchFound := true;
        }
      } else if bitsWaitedFor * eventBits == bitsWaitedFor {
        matchFound := true;
      }
    }

    /** `xTaskRemoveFromUnorderedEventList`, as far as the event group can see. */
    method RemoveFromUnorderedEventList(i: nat, itemValue: Bits)
      requires i < |tasksWaitingForBits|
      modifies this`tasksWaitingForBits, this`itemValues
      ensures tasksWaitingForBits == old(tasksWaitingForBits)[..i] + old(tasksWaitingForBits)[i + 1..]
      ensures itemValues == old(itemValues)[old(tasksWaitingForBits)[i] := itemValue + {ITEM_VALUE_IN_USE}]
    {
      itemValues := itemValues[tasksWaitingForBits[i] := itemValue + {ITEM_VALUE_IN_USE}];
      tasksWaitingForBits := tasksWaitingForBits[..i] + tasksWaitingForBits[i + 1..];
    }

    /** `xEventGroupClearBits`. */
    method ClearBits(bitsToClear: Bits) returns (bits: Bits)
      requires Valid() && bitsToClear !! CONTROL_BYTES
      modifies this`eventBits
      ensures Valid() && bits == old(eventBits) && eventBits == old(eventBits) - bitsToClear
    {
      bits := eventBits;
      NobodyMore(tasksWaitingForBits, itemValues, eventBits, bitsToClear);
      eventBits := eventBits - bitsToClear;
    }

    /** `xEventGroupWaitBits` up to where the caller blocks, if it does. */
    method WaitBits(t: Task, waitFor: Bits, clearOnExit: bool, all: bool, ticksToWait: nat)
      returns (blocked: bool, bits: Bits)
      requires Valid() && waitFor !! CONTROL_BYTES && waitFor != {} && t !in tasksWaitingForBits
      modifies this
      ensures Valid() && blocked == (!TestWaitCondition(old(eventBits), waitFor, all) && ticksToWait != 0)
      ensures eventBits == if TestWaitCondition(old(eventBits), waitFor, all) && clearOnExit then
                             old(eventBits) - waitFor
                           else
                             old(eventBits)
      ensures if blocked then
                && tasksWaitingForBits == old(tasksWaitingForBits) + [t]
                && itemValues == old(itemValues)[t := waitFor + Controls(clearOnExit, all) + {ITEM_VALUE_IN_USE}]
              else
                bits == old(eventBits) && tasksWaitingForBits == old(tasksWaitingForBits)
                    && itemValues == old(itemValues)
    {
      var waitConditionMet := TestWaitCondition(eventBits, waitFor, all);
      blocked, bits := false, eventBits;
      if waitConditionMet {
        if clearOnExit {
          NobodyMore(tasksWaitingForBits, itemValues, eventBits, waitFor);
          eventBits := eventBits - waitFor;
        }
      } else if ticksToWait != 0 {
        var controlBits: Bits := {};
        if clearOnExit {
          controlBits := controlBits + {CLEAR_EVENTS_ON_EXIT};
        }
        if all {
          controlBits := controlBits + {WAIT_FOR_ALL};
        }
        PlaceOnUnorderedEventList(t, waitFor, clearOnExit, all, controlBits);
        blocked, bits := true, {};
      }
    }

    /** `vTaskPlaceOnUnorderedEventList`, as far as the event group can see. */
    method PlaceOnUnorderedEventList(t: Task, waitFor: Bits, clearOnExit: bool, all: bool, controlBits: Bits)
      requires Valid() && waitFor !! CONTROL_BYTES && t !in tasksWaitingForBits
      requires controlBits == Controls(clearOnExit, all) && !TestWaitCondition(eventBits, waitFor, all)
      modifies this`tasksWaitingForBits, this`itemValues
      ensures Valid() && tasksWaitingForBits == old(tasksWaitingForBits) + [t]
      ensures itemValues == old(itemValues)[t := waitFor + controlBits + {ITEM_VALUE_IN_USE}]
    {
      ControlsApart(eventBits, waitFor, clearOnExit, all);
      itemValues := itemValues[t := waitFor + controlBits + {ITEM_VALUE_IN_USE}];
      tasksWaitingForBits := tasksWaitingForBits + [t];
    }

    /** The tick at which the time of a waiter is up takes it off the list, as it stands: the value of its item does not
        say that it was woken by bits, so that it looks again when it runs. */
    method TimeOut(t: Task) returns (ghost k: nat)
      requires Valid() && t in tasksWaitingForBits
      modifies this`tasksWaitingForBits
      ensures Valid() && k < |old(tasksWaitingForBits)| && old(tasksWaitingForBits)[k] == t
           && tasksWaitingForBits == old(tasksWaitingForBits)[..k] + old(tasksWaitingForBits)[k + 1..]
      ensures t !in tasksWaitingForBits && t in itemValues && UNBLOCKED_DUE_TO_BIT_SET !in itemValues[t]
    {
      hide Satisfied;
      WithoutElements(tasksWaitingForBits, t);
      k :| 0 <= k < |tasksWaitingForBits| && tasksWaitingForBits[k] == t;
      WithoutAt(tasksWaitingForBits, k);
      tasksWaitingForBits := Without(tasksWaitingForBits, t);
    }

    /** The end of `xEventGroupWaitBits` in a caller that blocked, when it runs again. */
    method WaitBitsReturn(t: Task, waitFor: Bits, clearOnExit: bool, all: bool) returns (bits: Bits)
      requires Valid() && t in itemValues && t !in tasksWaitingForBits
      modifies this`eventBits
      ensures Valid()
      ensures if UNBLOCKED_DUE_TO_BIT_SET in itemValues[t]
                then bits == itemValues[t] - CONTROL_BYTES && eventBits == old(eventBits)
              else bits == old(eventBits) && eventBits == if TestWaitCondition(bits, waitFor, all)
                  && clearOnExit then bits - waitFor else bits
    {
      bits := itemValues[t];
      if UNBLOCKED_DUE_TO_BIT_SET !in bits {
        bits := eventBits;
        if TestWaitCondition(bits, waitFor, all) {
          if clearOnExit {
            NobodyMore(tasksWaitingForBits, itemValues, eventBits, waitFor);
            eventBits := eventBits - waitFor;
          }
        }
      }
      bits := bits - CONTROL_BYTES;
    }

    /** `xEventGroupSync` up to where the caller blocks, if it does: set bits, then wait for all of some,
        which the last to arrive clears. */
    method Sync(t: Task, bitsToSet: Bits, waitFor: Bits, ticksToWait: nat) returns (blocked: bool, bits: Bits)
      requires Valid() && bitsToSet !! CONTROL_BYTES && waitFor !! CONTROL_BYTES && waitFor != {}
           && t !in tasksWaitingForBits
      modifies this
      ensures Valid() && blocked == (!(waitFor <= old(eventBits) + bitsToSet) && ticksToWait != 0)
      ensures var current := old(eventBits) + bitsToSet;
              var left := current - ToClear(old(tasksWaitingForBits), old(itemValues), current);
              && eventBits == (if waitFor <= current then left - waitFor else left)
              && tasksWaitingForBits == Staying(old(tasksWaitingForBits), old(itemValues), current)
                   + (if blocked then [t] else [])
              && (!blocked ==> bits == if waitFor <= current then current else left)
              && itemValues == if blocked
                   then ValuesAfter(old(tasksWaitingForBits), old(itemValues),
                       current)[t := waitFor + Controls(true, true) + {ITEM_VALUE_IN_USE}]
                               else ValuesAfter(old(tasksWaitingForBits), old(itemValues), current)
    {
      var originalBitValue := eventBits;
      var setBits := SetBits(bitsToSet);
      if (originalBitValue + bitsToSet) * waitFor == waitFor {
        assert waitFor <= originalBitValue + bitsToSet;
        bits := originalBitValue + bitsToSet;
        NobodyMore(tasksWaitingForBits, itemValues, eventBits, waitFor);
        eventBits := eventBits - waitFor;
        blocked := false;
      } else if ticksToWait != 0 {
        assert !(waitFor <= originalBitValue + bitsToSet);
        assert t !in tasksWaitingForBits;
        PlaceOnUnorderedEventList(t, waitFor, true, true, {CLEAR_EVENTS_ON_EXIT} + {WAIT_FOR_ALL});
        blocked, bits := true, {};
      } else {
        blocked, bits := false, eventBits;
      }
    }

    /** `vEventGroupDelete`: every waiter is woken, with no bits. */
    method Delete()
      requires Valid()
      modifies this
      ensures tasksWaitingForBits == []
      ensures forall t :: t in itemValues <==> t in old(itemValues)
      ensures forall t :: t in itemValues ==>
                itemValues[t] == if t in old(tasksWaitingForBits) then Delivered({}) else old(itemValues)[t]
    {
      ghost var before, k := tasksWaitingForBits, 0;
      while |tasksWaitingForBits| > 0
        invariant k <= |before| && tasksWaitingForBits == before[k..]
        invariant forall t :: t in itemValues <==> t in old(itemValues)
        invariant forall t ::
                  t in itemValues ==> itemValues[t] == if t in before[..k] then Delivered({}) else old(itemValues)[t]
        decreases |tasksWaitingForBits|
      {
        assert tasksWaitingForBits[0] == before[k] && before[..k + 1] == before[..k] + [before[k]];
        RemoveFromUnorderedEventList(0, {UNBLOCKED_DUE_TO_BIT_SET});
        k := k + 1;
      }
      assert before[..k] == before;
    }
  }

  /** The control bits of a wait. */
  function Controls(clearOnExit: bool, all: bool): Bits {
    (if clearOnExit then {CLEAR_EVENTS_ON_EXIT} else {}) + (if all then {WAIT_FOR_ALL} else {})
  }

  /** The control bits in an event item's value do not disturb the condition recorded in it. */
  lemma ControlsApart(current: Bits, waitFor: Bits, clearOnExit: bool, all: bool)
    requires waitFor !! CONTROL_BYTES
    ensures var value := waitFor + Controls(clearOnExit, all) + {ITEM_VALUE_IN_USE};
            && (Satisfied(current, value) <==> TestWaitCondition(current, waitFor, all))
            && UNBLOCKED_DUE_TO_BIT_SET !in value && (CLEAR_EVENTS_ON_EXIT in value <==> clearOnExit)
  {
    var value := waitFor + Controls(clearOnExit, all) + {ITEM_VALUE_IN_USE};
    assert value - CONTROL_BYTES == waitFor;
  }

  /** Clearing bits leaves every waiter waiting. */
  lemma NobodyMore(waiters: seq<Task>, values: Values, current: Bits, clear: Bits)
    requires forall t :: t in waiters ==> t in values && !Satisfied(current, values[t])
    ensures forall t :: t in waiters ==> !Satisfied(current - clear, values[t])
  {
    forall t | t in waiters
      ensures !Satisfied(current - clear, values[t])
    {
      ClearingSatisfiesNone(current, clear, values[t]);
    }
  }

  lemma NoneYet(waiters: seq<Task>, values: Values, current: Bits)
    ensures Staying(waiters[..0], values, current) == [] && ToClear(waiters[..0], values, current) == {}
    ensures ValuesAfter(waiters[..0], values, current) == values
  {
  }

  /** What one more waiter in the loop of `xEventGroupSetBits` changes. */
  lemma OneMore(waiters: seq<Task>, k: nat, values: Values, current: Bits)
    requires k < |waiters| && Distinct(waiters) && forall t :: t in waiters ==> t in values
    ensures var t, done, more := waiters[k], waiters[..k], waiters[..k + 1];
            && t in values && t in ValuesAfter(done, values, current)
            && ValuesAfter(done, values, current)[t] == values[t]
            && if Satisfied(current, values[t]) then
                 && Staying(more, values, current) == Staying(done, values, current)
                 && ToClear(more, values, current) ==
                    (if CLEAR_EVENTS_ON_EXIT in values[t]
                        then ToClear(done, values, current) + (values[t] - CONTROL_BYTES)
                            else ToClear(done, values, current))
                 && ValuesAfter(more, values, current) == ValuesAfter(done, values, current)[t := Delivered(current)]
               else
                 && Staying(more, values, current) == Staying(done, values, current) + [t]
                 && ToClear(more, values, current) == ToClear(done, values, current)
                 && ValuesAfter(more, values, current) == ValuesAfter(done, values, current)
  {
    hide Satisfied, Delivered, ValuesAfter;
    var t, done, more := waiters[k], waiters[..k], waiters[..k + 1];
    assert more[..k] == done && more[k] == t && more == done + [t];
    ValuesMore(waiters, k, values, current);
  }

  lemma ValuesMore(waiters: seq<Task>, k: nat, values: Values, current: Bits)
    requires k < |waiters| && Distinct(waiters) && forall t :: t in waiters ==> t in values
    ensures var t, done, more := waiters[k], waiters[..k], waiters[..k + 1];
            && t in values && t in ValuesAfter(done, values, current)
            && ValuesAfter(done, values, current)[t] == values[t]
            && ValuesAfter(more, values, current) ==
               if Satisfied(current, values[t]) then ValuesAfter(done, values, current)[t := Delivered(current)]
               else ValuesAfter(done, values, current)
  {
    hide Satisfied, Delivered;
    var t, done, more := waiters[k], waiters[..k], waiters[..k + 1];
    assert more == done + [t] && t !in done;
  }

  lemma ListStep(rest: seq<Task>, waiters: seq<Task>, k: nat, list: seq<Task>)
    requires k < |waiters| && list == rest + waiters[k..]
    ensures list[|rest|] == waiters[k] && list[..|rest|] + list[|rest| + 1..] == rest + waiters[k + 1..]
    ensures list == rest + [waiters[k]] + waiters[k + 1..]
  {
  }

  /** Those who stay are not satisfied by the bits that are left either. */
  lemma StillUnsatisfied(waiters: seq<Task>, values: Values, current: Bits, clear: Bits)
    requires Distinct(waiters) && forall t :: t in waiters ==> t in values
    ensures Distinct(Staying(waiters, values, current))
    ensures forall t :: t in Staying(waiters, values, current) ==>
              && t in waiters && !Satisfied(current - clear, values[t])
              && t in ValuesAfter(waiters, values, current) && ValuesAfter(waiters, values, current)[t] == values[t]
  {
    StayingDistinct(waiters, values, current);
    forall t | t in Staying(waiters, values, current)
      ensures !Satisfied(current - clear, values[t])
    {
      ClearingSatisfiesNone(current, clear, values[t]);
    }
  }
}
