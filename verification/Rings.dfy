/** What a kernel list means: its items in order and the place of its walking index. The class in
    Lists.dfy refines this, and the scheduler's lists are values of this type. */
module Rings {
  /** `at` counts the items up to and including the one the index rests on; 0 is the end marker. */
  datatype Ring<T> = Ring(items: seq<T>, at: nat) {
    ghost predicate Valid() {
      && at <= |items|
      && forall i, j :: 0 <= i < j < |items| ==> items[i] != items[j]
    }

    /** The order in which repeated walking returns the items. */
    function Upcoming(): seq<T>
      requires at <= |items|
    {
      items[at..] + items[..at]
    }

    ghost predicate RestsOn(x: T) {
      0 < at <= |items| && items[at - 1] == x
    }
  }

  function EmptyRing<T>(): Ring<T> {
    Ring([], 0)
  }

  /** `vListInsertEnd`: the item goes directly before the one the index rests on. */
  function InsertEnd<T>(r: Ring<T>, x: T): (r': Ring<T>)
    requires r.at <= |r.items|
    ensures r.Valid() && x !in r.items ==> r'.Valid()
  {
    if r.at == 0 then Ring(r.items + [x], 0)
    else Ring(r.items[..r.at - 1] + [x] + r.items[r.at - 1..], r.at + 1)
  }

  /** `vListInsert`, once the place in the list is known. */
  function InsertAt<T>(r: Ring<T>, p: nat, x: T): (r': Ring<T>)
    requires r.at <= |r.items| && p <= |r.items|
    ensures r.Valid() && x !in r.items ==> r'.Valid()
  {
    Ring(r.items[..p] + [x] + r.items[p..], if p < r.at then r.at + 1 else r.at)
  }

  /** `uxListRemove`: an index resting on the item falls back to the one before. */
  function RemoveAt<T>(r: Ring<T>, k: nat): (r': Ring<T>)
    requires r.at <= |r.items| && k < |r.items|
    ensures r.Valid() ==> r'.Valid()
  {
    Ring(r.items[..k] + r.items[k + 1..], if k < r.at then r.at - 1 else r.at)
  }

  /** The effect of `listGET_OWNER_OF_NEXT_ENTRY` on the index. */
  function Walk<T>(r: Ring<T>): (r': Ring<T>)
    requires r.at <= |r.items| && r.items != []
    ensures 0 < r'.at <= |r'.items| && r'.items == r.items
  {
    Ring(r.items, if r.at == |r.items| then 1 else r.at + 1)
  }

  function DistanceOf<T>(r: Ring<T>, i: nat): nat
    requires r.at <= |r.items| && i < |r.items|
  {
    if i < r.at then i + |r.items| - r.at else i - r.at
  }

  /** How many items the walk returns before it returns `x`. */
  ghost function Distance<T>(r: Ring<T>, x: T): (d: nat)
    requires r.Valid() && x in r.items
    ensures d < |r.items| && r.Upcoming()[d] == x
  {
    var i :| 0 <= i < |r.items| && r.items[i] == x;
    DistanceOf(r, i)
  }

  lemma PlaceGivesDistance<T>(r: Ring<T>, i: nat)
    requires r.Valid() && i < |r.items|
    ensures Distance(r, r.items[i]) == DistanceOf(r, i)
  {
  }

  /** The walk returns the item at distance zero and brings every other item one closer. */
  lemma WalkStep<T>(r: Ring<T>, x: T)
    requires r.Valid() && x in r.items
    ensures Walk(r).Valid() && Walk(r).items[Walk(r).at - 1] == r.Upcoming()[0]
    ensures Distance(r, x) == 0 <==> Walk(r).RestsOn(x)
    ensures Distance(Walk(r), x) == if Distance(r, x) == 0 then |r.items| - 1 else Distance(r, x) - 1
  {
    var i :| 0 <= i < |r.items| && r.items[i] == x;
    PlaceGivesDistance(r, i);
    PlaceGivesDistance(Walk(r), i);
  }

  /** A new item delays the one the index rests on by one turn, and no other item at all. */
  lemma InsertEndStep<T>(r: Ring<T>, y: T, x: T)
    requires r.Valid() && x in r.items && y !in r.items
    ensures x in InsertEnd(r, y).items
    ensures Distance(InsertEnd(r, y), x) == Distance(r, x) + if r.RestsOn(x) then 1 else 0
  {
    var r' := InsertEnd(r, y);
    var i :| 0 <= i < |r.items| && r.items[i] == x;
    var i' := InsertEndPlace(r, y, i);
    assert r.RestsOn(x) <==> r.at > 0 && i == r.at - 1;
    PlaceGivesDistance(r, i);
    hide InsertEnd, Ring.Valid, Ring.RestsOn;
    PlaceGivesDistance(r', i');
  }

  /** Where an item is after an insertion. */
  lemma InsertEndPlace<T>(r: Ring<T>, y: T, i: nat) returns (i': nat)
    requires r.at <= |r.items| && i < |r.items|
    ensures var r' := InsertEnd(r, y);
            && |r'.items| == |r.items| + 1 && r'.at == (if r.at == 0 then 0 else r.at + 1) && r'.at <= |r'.items|
            && i' == (if r.at > 0 && i >= r.at - 1 then i + 1 else i) && i' < |r'.items| && r'.items[i'] == r.items[i]
  {
    i' := if r.at > 0 && i >= r.at - 1 then i + 1 else i;
  }

  /** And after a removal. */
  lemma RemovePlace<T>(r: Ring<T>, k: nat, i: nat) returns (i': nat)
    requires r.at <= |r.items| && k < |r.items| && i < |r.items| && i != k
    ensures var r' := RemoveAt(r, k);
            && |r'.items| == |r.items| - 1 && r'.at == (if k < r.at then r.at - 1 else r.at) && r'.at <= |r'.items|
            && i' == (if i > k then i - 1 else i) && i' < |r'.items| && r'.items[i'] == r.items[i]
  {
    i' := if i > k then i - 1 else i;
  }

  /** Removing an item, the one under the index included, brings those behind it one closer. */
  lemma RemoveStep<T>(r: Ring<T>, k: nat, x: T)
    requires r.Valid() && k < |r.items| && x in r.items && x != r.items[k]
    ensures x in RemoveAt(r, k).items
    ensures Distance(RemoveAt(r, k), x) ==
            Distance(r, x) - if Distance(r, r.items[k]) < Distance(r, x) then 1 else 0
  {
    var r' := RemoveAt(r, k);
    var i :| 0 <= i < |r.items| && r.items[i] == x;
    var i' := RemovePlace(r, k, i);
    PlaceGivesDistance(r, i);
    PlaceGivesDistance(r, k);
    hide RemoveAt, Ring.Valid;
    PlaceGivesDistance(r', i');
  }

  datatype ListOp<T> = DoInsertEnd(item: T) | DoRemove(place: nat) | DoWalk

  /** An operation the scheduler may perform while `x` stays on the list. */
  ghost predicate Keeps<T>(r: Ring<T>, op: ListOp<T>, x: T) {
    && r.Valid() && x in r.items
    && match op
       case DoInsertEnd(y) => y !in r.items
       case DoRemove(k) => k < |r.items| && r.items[k] != x
       case DoWalk => true
  }

  ghost function Apply<T>(r: Ring<T>, op: ListOp<T>, x: T): (r': Ring<T>)
    requires Keeps(r, op, x)
  {
    match op
    case DoInsertEnd(y) => InsertEnd(r, y)
    case DoRemove(k) => RemoveAt(r, k)
    case DoWalk => Walk(r)
  }

  /** Any interleaving of insertions, walks and removals that leaves `x` on the list. */
  ghost predicate Run<T>(r: Ring<T>, ops: seq<ListOp<T>>, x: T)
    decreases ops
  {
    && r.Valid() && x in r.items
    && (ops != [] ==> Keeps(r, ops[0], x) && Run(Apply(r, ops[0], x), ops[1..], x))
  }

  /** Whether some walk of the run returns `x`. */
  ghost predicate Returned<T>(r: Ring<T>, ops: seq<ListOp<T>>, x: T)
    requires Run(r, ops, x)
    decreases ops
  {
    ops != [] &&
    ((ops[0].DoWalk? && r.Upcoming()[0] == x) || Returned(Apply(r, ops[0], x), ops[1..], x))
  }

  function Walks<T>(ops: seq<ListOp<T>>): nat {
    if ops == [] then 0 else (if ops[0].DoWalk? then 1 else 0) + Walks(ops[1..])
  }

  /** Insertions made while the index rests on `x`: the only ones that can delay it. */
  ghost function Overtakings<T>(r: Ring<T>, ops: seq<ListOp<T>>, x: T): nat
    requires Run(r, ops, x)
    decreases ops
  {
    if ops == [] then 0
    else (if ops[0].DoInsertEnd? && r.RestsOn(x) then 1 else 0) + Overtakings(Apply(r, ops[0], x), ops[1..], x)
  }

  /** Bounded waiting in round robin: an item still unreturned has seen no more walks than its
      distance at the start plus the items inserted while the index rested on it. */
  lemma {:induction false} BoundedWaiting<T>(r: Ring<T>, ops: seq<ListOp<T>>, x: T)
    requires Run(r, ops, x) && !Returned(r, ops, x)
    ensures Walks(ops) <= Distance(r, x) + Overtakings(r, ops, x)
    decreases ops
  {
    if ops != [] {
      var r' := Apply(r, ops[0], x);
      match ops[0] {
        case DoInsertEnd(y) => InsertEndStep(r, y, x);
        case DoRemove(k) => RemoveStep(r, k, x);
        case DoWalk => WalkStep(r, x);
      }
      BoundedWaiting(r', ops[1..], x);
    }
  }
}

/** Lists kept in ascending order of item value: the delayed, event and timer lists. */
module SortedLists {
  ghost predicate Sorted(values: seq<int>) {
    forall i, j :: 0 <= i < j < |values| ==> values[i] <= values[j]
  }

  /** Where `vListInsert` puts a value: before the first larger one, so after all equal ones. */
  function Place(values: seq<int>, v: int): (p: nat)
    ensures p <= |values|
    ensures forall k :: 0 <= k < p ==> values[k] <= v
    ensures p < |values| ==> v < values[p]
  {
    if values == [] || values[0] > v then 0 else 1 + Place(values[1..], v)
  }

  /** No other place keeps a sorted list sorted and first-come-first-served among equals. */
  lemma PlaceUnique(values: seq<int>, v: int, p: nat)
    requires Sorted(values) && p <= |values|
    requires Sorted(values[..p] + [v] + values[p..])
    requires forall k :: p <= k < |values| ==> values[k] != v
    ensures p == Place(values, v)
  {
    var q := Place(values, v);
    var w := values[..p] + [v] + values[p..];
    assert w[p] == v;
    assert p > 0 ==> w[p - 1] == values[p - 1];
    assert p < |values| ==> w[p + 1] == values[p];
  }

  lemma InsertKeepsSorted(values: seq<int>, v: int)
    requires Sorted(values)
    ensures var p := Place(values, v); Sorted(values[..p] + [v] + values[p..])
  {
  }
}
