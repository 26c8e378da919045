/** The intrusive list of list.c and list.h: a circular doubly linked list closed by an end marker,
    with an index that walks round it. Its meaning is a Ring of items. */
module Lists {
  import opened Ticks
  import opened Rings
  import opened SortedLists

  /** `ListItem_t`. */
  class ListItem {
    var value: Tick
    var next: ListItem?
    var previous: ListItem?
    var owner: int
    var container: List?

    /** `vListInitialiseItem`. */
    constructor (owner: int, value: Tick)
      ensures this.owner == owner && this.value == value && container == null
    {
      this.owner := owner;
      this.value := value;
      this.container := null;
    }
  }

  /** The list items in the order of their links, the end marker first; which of them is under the
      index; and where each item is, so that none is listed twice. */
  datatype Shape = Shape(circle: seq<ListItem>, at: nat, place: map<ListItem, nat>)

  /** `List_t`. */
  class List {
    var numberOfItems: int
    var index: ListItem
    const end: ListItem
    ghost var shape: Shape

    ghost predicate Valid()
      reads this, shape.circle
    {
      WellLinked() && index == shape.circle[shape.at]
    }

    /** Everything but the index. */
    ghost predicate WellLinked()
      reads `shape, `numberOfItems, shape.circle
    {
      var Shape(c, at, place) := shape;
      && c != [] && c[0] == end && end.value == MAX_DELAY
      && Placed(c, place) && Linked(c)
      && at < |c| && numberOfItems == |c| - 1
      && (forall i :: 1 <= i < |c| ==> c[i].container == this)
    }

    /** The items and the place of the index, without the marker. */
    ghost function Contents(): Ring<ListItem>
      requires shape.circle != []
      reads `shape
    {
      Ring(shape.circle[1..], shape.at)
    }

    ghost predicate Holds(item: ListItem)
      reads this
    {
      item in shape.circle
    }

    /** The item values in list order. */
    ghost function Values(): (v: seq<int>)
      requires shape.circle != []
      reads this, shape.circle
      ensures |v| == |shape.circle| - 1
      ensures forall i :: 0 <= i < |v| ==> v[i] == shape.circle[i + 1].value
    {
      seq(|shape.circle| - 1, i requires 0 <= i < |shape.circle| - 1 reads this, shape.circle =>
          shape.circle[i + 1].value)
    }

    lemma Around(item: ListItem)
      requires Valid() && Holds(item) && item != end
      ensures item in shape.place
      ensures var q := shape.place[item];
              && 1 <= q < |shape.circle| && item == shape.circle[q] && item.previous == shape.circle[q - 1]
              && shape.at < |shape.circle| && item.next != null && item.next in shape.circle && item.next != item
              && (index == item <==> shape.at == q)
    {
    }

    /** `vListInitialise`. */
    constructor ()
      ensures Valid() && fresh(end) && Contents() == EmptyRing()
    {
      var marker := new ListItem(0, MAX_DELAY);
      marker.next := marker;
      marker.previous := marker;
      end := marker;
      index := marker;
      numberOfItems := 0;
      shape := Shape([marker], 0, map[marker := 0]);
    }

    /** `vListInsertEnd`. */
    method InsertEnd(item: ListItem)
      requires Valid() && !Holds(item) && item.container == null
      modifies this, index`previous, index.previous`next, item`next, item`previous, item`container
      ensures Valid() && Contents() == Rings.InsertEnd(old(Contents()), item)
    {
      ghost var Shape(c, p, place) := shape;
      Attach(index.previous, item, if p == 0 then |c| else p);
      SpliceEnd(c, p, item, shape.circle);
    }

    /** `vListInsert`. */
    method Insert(item: ListItem)
      requires Valid() && !Holds(item) && item.container == null
      modifies this, shape.circle`next, shape.circle`previous, item`next, item`previous, item`container
      ensures Valid()
      ensures Contents() == Rings.InsertAt(old(Contents()), Place(old(Values()), item.value), item)
    {
      hide Place, Linked, Placed, Rings.InsertAt, IsSplice;
      ghost var Shape(c, at, place) := shape;
      ghost var values := Values();
      var before, p := InsertionPoint(item.value);
      Attach(before, item, p + 1);
      SpliceAt(c, p, at, item, shape.circle);
    }

    /** What `vListInsertEnd` and `vListInsert` have in common: everything but finding the place. */
    method Attach(before: ListItem, item: ListItem, ghost q: nat)
      requires Valid() && !Holds(item) && item.container == null
      requires 1 <= q <= |shape.circle| && before == shape.circle[q - 1]
      modifies this, before`next, before.next`previous, item`next, item`previous, item`container
      ensures Valid() && index == old(index) && IsSplice(old(shape.circle), q, item, shape.circle)
      ensures shape.at == if q <= old(shape.at) then old(shape.at) + 1 else old(shape.at)
    {
      ghost var Shape(c, at, place) := shape;
      ghost var d, place' := MakeSplice(c, q, place, item);
      item.container := this;
      numberOfItems := numberOfItems + 1;
      shape := Shape(d, if q <= at then at + 1 else at, place');
      assert forall i :: 1 <= i < |d| ==> d[i].container == this;
      LinkAfter(before, item, c, q, place, d);
    }

    /** The loop of `vListInsert`: the item after which a value belongs. */
    method InsertionPoint(value: Tick) returns (before: ListItem, ghost p: nat)
      requires Valid()
      ensures p == Place(Values(), value) && before == shape.circle[Place(Values(), value)]
      ensures before.next != null && before.next in shape.circle
    {
      ghost var c := shape.circle;
      p := 0;
      before := end;
      if value == MAX_DELAY {
        before := end.previous;
        p := |c| - 1;
      } else {
        while before.next.value <= value
          invariant 0 <= p < |c| && before == c[p]
          invariant forall k :: 0 <= k < p ==> Values()[k] <= value
          decreases |c| - p
        {
          before := before.next;
          p := p + 1;
        }
      }
      PlaceFound(Values(), value, p);
    }

    /** `listGET_OWNER_OF_NEXT_ENTRY`. */
    method OwnerOfNextEntry() returns (owner: int)
      requires Valid() && |shape.circle| > 1
      modifies this`index, this`shape
      ensures Valid() && Contents() == Walk(old(Contents())) && owner == Contents().items[Contents().at - 1].owner
    {
      index := index.next;
      if index == end {
        index := index.next;
      }
      owner := index.owner;
      shape := shape.(at := if shape.at + 1 == |shape.circle| then 1 else shape.at + 1);
    }
  }

  /** `uxListRemove`, which finds the list through the item. */
  method Remove(item: ListItem) returns (left: int)
    requires item.container != null && item.container.Valid() && item.container.Holds(item)
         && item != item.container.end
    modifies item.container, item.next`previous, item.previous`next, item`container
    ensures item.container == null
    ensures var list := old(item.container);
            && list.Valid() && left == |list.Contents().items|
            && list.Contents() == Rings.RemoveAt(old(list.Contents()), old(list.shape.place[item]) - 1)
  {
    var list := item.container;
    left := Unlist(list, item);
    if list.index == item {
      list.index := item.previous;
    }
  }

  /** All of it but the index. */
  method Unlist(list: List, item: ListItem) returns (left: int)
    requires list.Valid() && list.Holds(item) && item != list.end
    modifies list`numberOfItems, list`shape, item.next`previous, item.previous`next, item`container
    ensures item.container == null && item.previous == old(item.previous) && list.WellLinked()
         && list.shape.circle != []
    ensures left == |list.Contents().items| && list.shape.at < |list.shape.circle|
    ensures list.Contents() == Rings.RemoveAt(old(list.Contents()), old(list.shape.place[item]) - 1)
    ensures list.shape.circle[list.shape.at] == if list.index == item then item.previous else list.index
  {
    hide Linked, Placed, IsUnsplice, Rings.RemoveAt, List.WellLinked;
    list.Around(item);
    ghost var Shape(c, at, place) := list.shape;
    ghost var q := place[item];
    left := Detach(list, item, q);
    UnspliceContents(c, q, at, list.shape.circle);
    UnspliceIndex(c, q, at, list.shape.circle);
  }

  /** The list without the item, its index not yet adjusted. */
  method Detach(list: List, item: ListItem, ghost q: nat) returns (left: int)
    requires list.WellLinked() && 1 <= q < |list.shape.circle| && item == list.shape.circle[q]
    modifies list`numberOfItems, list`shape, item.next`previous, item.previous`next, item`container
    ensures item.container == null && list.WellLinked() && left == |list.shape.circle| - 1
    ensures IsUnsplice(old(list.shape.circle), q, list.shape.circle)
    ensures list.shape.at == if q <= old(list.shape.at) then old(list.shape.at) - 1 else old(list.shape.at)
  {
    ghost var Shape(c, at, place) := list.shape;
    ghost var d, place' := MakeUnsplice(c, q, place);
    item.container := null;
    list.numberOfItems := list.numberOfItems - 1;
    left := list.numberOfItems;
    list.shape := Shape(d, if q <= at then at - 1 else at, place');
    assert forall i :: 1 <= i < |d| ==> d[i].container == list;
    Unlink(item, c, q, place, d);
  }

  ghost predicate Placed(c: seq<ListItem>, place: map<ListItem, nat>) {
    forall i {:trigger c[i]} :: 0 <= i < |c| ==> c[i] in place && place[c[i]] == i
  }

  /** Neighbours in the circle point at each other. */
  ghost predicate Linked(c: seq<ListItem>)
    reads c
  {
    && (forall i {:trigger c[i].next} :: 0 <= i < |c| - 1 ==> c[i].next == c[i + 1])
    && (forall i {:trigger c[i].previous} :: 0 < i < |c| ==> c[i].previous == c[i - 1])
    && (c != [] ==> c[|c| - 1].next == c[0] && c[0].previous == c[|c| - 1])
  }

  ghost predicate IsSplice(c: seq<ListItem>, q: nat, item: ListItem, d: seq<ListItem>) {
    && q <= |c| && |d| == |c| + 1 && d[q] == item
    && (forall i {:trigger d[i]} :: 0 <= i < q ==> d[i] == c[i])
    && (forall i {:trigger d[i]} :: q < i < |d| ==> d[i] == c[i - 1])
  }

  ghost predicate IsUnsplice(c: seq<ListItem>, q: nat, d: seq<ListItem>) {
    && q < |c| && |d| == |c| - 1
    && (forall i {:trigger d[i]} :: 0 <= i < q ==> d[i] == c[i])
    && (forall i {:trigger d[i]} :: q <= i < |d| ==> d[i] == c[i + 1])
  }

  /** The four pointer writes that `vListInsertEnd` and `vListInsert` have in common. */
  method LinkAfter(before: ListItem, item: ListItem, ghost c: seq<ListItem>, ghost q: nat,
                   ghost place: map<ListItem, nat>, ghost d: seq<ListItem>)
    requires IsSplice(c, q, item, d) && Placed(c, place) && Linked(c) && item !in c && 1 <= q && before == c[q - 1]
    modifies before`next, before.next`previous, item`next, item`previous
    ensures Linked(d)
  {
    var after := before.next;
    item.next := after;
    item.previous := before;
    after.previous := item;
    before.next := item;
  }

  /** The two pointer writes of `uxListRemove`. */
  method Unlink(item: ListItem, ghost c: seq<ListItem>, ghost q: nat,
                ghost place: map<ListItem, nat>, ghost d: seq<ListItem>)
    requires IsUnsplice(c, q, d) && Placed(c, place) && Linked(c) && 1 <= q < |c| && item == c[q]
    modifies item.next`previous, item.previous`next
    ensures Linked(d)
  {
    item.next.previous := item.previous;
    item.previous.next := item.next;
  }

  lemma MakeSplice(c: seq<ListItem>, q: nat, place: map<ListItem, nat>, item: ListItem)
    returns (d: seq<ListItem>, place': map<ListItem, nat>)
    requires Placed(c, place) && item !in c && q <= |c|
    ensures IsSplice(c, q, item, d) && Placed(d, place')
  {
    d := c[..q] + [item] + c[q..];
    place' := map x | x in d :: if x == item then q else if place[x] < q then place[x] else place[x] + 1;
  }

  lemma MakeUnsplice(c: seq<ListItem>, q: nat, place: map<ListItem, nat>)
    returns (d: seq<ListItem>, place': map<ListItem, nat>)
    requires Placed(c, place) && q < |c|
    ensures IsUnsplice(c, q, d) && Placed(d, place') && c[q] !in d
  {
    d := c[..q] + c[q + 1..];
    place' := map x | x in d :: if place[x] < q then place[x] else place[x] - 1;
  }

  lemma SpliceEnd(c: seq<ListItem>, at: nat, item: ListItem, d: seq<ListItem>)
    requires at < |c| && IsSplice(c, if at == 0 then |c| else at, item, d)
    ensures Ring(d[1..], if at == 0 then 0 else at + 1) == Rings.InsertEnd(Ring(c[1..], at), item)
  {
    if at > 0 {
      assert d[1..] == c[1..][..at - 1] + [item] + c[1..][at - 1..];
    } else {
      assert d[1..] == c[1..] + [item];
    }
  }

  lemma SpliceAt(c: seq<ListItem>, p: nat, at: nat, item: ListItem, d: seq<ListItem>)
    requires at < |c| && p < |c| && IsSplice(c, p + 1, item, d)
    ensures Ring(d[1..], if p < at then at + 1 else at) == Rings.InsertAt(Ring(c[1..], at), p, item)
  {
    assert d[1..] == c[1..][..p] + [item] + c[1..][p..];
  }

  lemma UnspliceContents(c: seq<ListItem>, k: nat, at: nat, d: seq<ListItem>)
    requires at < |c| && 1 <= k && IsUnsplice(c, k, d)
    ensures Ring(d[1..], if k <= at then at - 1 else at) == Rings.RemoveAt(Ring(c[1..], at), k - 1)
  {
    assert d[1..] == c[1..][..k - 1] + c[1..][k..];
  }

  /** An index on the item removed falls back to the item before it. */
  lemma UnspliceIndex(c: seq<ListItem>, k: nat, at: nat, d: seq<ListItem>)
    requires at < |c| && 1 <= k && IsUnsplice(c, k, d)
    ensures var at' := if k <= at then at - 1 else at; at' < |d| && d[at'] == if at == k then c[k - 1] else c[at]
  {
  }

  lemma PlaceFound(values: seq<int>, v: int, p: nat)
    requires p <= |values| && (forall k :: 0 <= k < p ==> values[k] <= v) && (p < |values| ==> v < values[p])
    ensures p == Place(values, v)
  {
  }
}
