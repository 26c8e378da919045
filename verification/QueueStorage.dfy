/** The storage of a queue: a ring of byte slots with a write pointer and a "last read" pointer, which
    behaves like a sequence of at most `uxLength` items open at both ends. */
module QueueStorage {
  import opened Common

  type Byte = b: int | 0 <= b < 256

  /** queueSEND_TO_BACK, queueSEND_TO_FRONT and queueOVERWRITE. */
  datatype Position = ToBack | ToFront | Overwrite

  /** The slot of the i-th item behind the last one read. */
  function Slot(length: nat, readSlot: nat, i: nat): (k: nat)
    requires readSlot < length && i <= length
    ensures k < length
  {
    var x := readSlot + 1 + i;
    if x < length then x else if x < 2 * length then x - length else x - 2 * length
  }

  /** Which is that many slots on, modulo the length of the queue. */
  lemma SlotIsModulo(length: nat, readSlot: nat, i: nat)
    requires readSlot < length && i <= length
    ensures Slot(length, readSlot, i) == (readSlot + 1 + i) % length
  {
    var x := readSlot + 1 + i;
    DivisionUnique(x, length, if x < length then 0 else if x < 2 * length then 1 else 2, Slot(length, readSlot, i));
  }

  lemma SlotsDistinct(length: nat, readSlot: nat, i: nat, j: nat)
    requires readSlot < length && i < length && j < length && i != j
    ensures Slot(length, readSlot, i) != Slot(length, readSlot, j)
  {
  }

  /** Where a slot starts; slots do not overlap. */
  lemma SlotBounds(size: nat, length: nat, j: nat, k: nat)
    requires j < length && k < length
    ensures j * size + size == (j + 1) * size <= length * size
    ensures j < k ==> j * size + size <= k * size
  {
    Distribute(j, 1, size);
    Monotone(j + 1, length, size);
    if j < k {
      Monotone(j + 1, k, size);
    }
  }

  lemma SlotBefore(size: nat, k: nat)
    requires 0 < size
    ensures k > 0 ==> (k - 1) * size == k * size - size >= 0
    ensures k == 0 ==> k * size == 0
  {
    Distribute(k, 1, size);
    if k > 0 {
      AtLeastOnce(k, size);
    }
  }

  lemma Monotone(a: nat, b: nat, size: nat)
    requires a <= b
    ensures a * size <= b * size
  {
    Distribute(b, a, size);
    if a < b {
      AtLeastOnce(b - a, size);
    }
  }

  lemma OtherSlot(size: nat, length: nat, before: seq<Byte>, after: seq<Byte>, j: nat, k: nat)
    requires j < length && k < length && j != k && length * size <= |before| == |after|
    requires forall x :: 0 <= x < |before| && !(k * size <= x < k * size + size) ==> after[x] == before[x]
    ensures j * size + size <= |before| && after[j * size..j * size + size] == before[j * size..j * size + size]
  {
    SlotBounds(size, length, j, k);
    SlotBounds(size, length, k, j);
    var a, b := j * size, k * size;
    assert a + size <= b || b + size <= a;
  }

  /** What sending means for the sequence of items: those without size are only counted, in an `UBaseType_t`. */
  function AfterSend(items: seq<seq<Byte>>, item: seq<Byte>, position: Position): seq<seq<Byte>> {
    if item != [] then Sent(items, item, position) else if |items| == MAX_UBASE then [] else items + [[]]
  }

  function Sent(items: seq<seq<Byte>>, item: seq<Byte>, position: Position): seq<seq<Byte>> {
    match position
    case ToBack => items + [item]
    case ToFront => [item] + items
    case Overwrite => [item]
  }

  class Queue {
    const storage: array<Byte>
    const length: nat
    const itemSize: nat
    var writeTo: nat
    var readFrom: nat
    var messagesWaiting: nat
    ghost var readSlot: nat

    ghost predicate Valid()
      reads this
    {
      && Shaped() && messagesWaiting <= (if itemSize == 0 then MAX_UBASE else length) && readSlot < length
      && readFrom == readSlot * itemSize
      && writeTo == if itemSize == 0 then 0 else Slot(length, readSlot, messagesWaiting) * itemSize
    }

    predicate Shaped() {
      0 < length <= MAX_UBASE && length * itemSize < storage.Length
    }

    ghost function ItemAt(k: nat): (item: seq<Byte>)
      requires Shaped() && k < length
      reads storage
      ensures |item| == itemSize
    {
      SlotBounds(itemSize, length, k, k);
      storage[k * itemSize..k * itemSize + itemSize]
    }

    /** The items in the order in which they will be received. */
    ghost function Contents(): (items: seq<seq<Byte>>)
      requires Valid()
      reads this, storage
      ensures |items| == messagesWaiting
    {
      seq(messagesWaiting, i requires 0 <= i < messagesWaiting reads this, storage requires Valid() =>
        if itemSize == 0 then [] else ItemAt(Slot(length, readSlot, i)))
    }

    /** `xQueueGenericCreate`: an empty queue, with storage one byte longer than asked for. */
    constructor (length: nat, itemSize: nat)
      requires 0 < length <= MAX_UBASE
      ensures Valid() && Contents() == [] && this.length == length && this.itemSize == itemSize && fresh(storage)
    {
      this.length := length;
      this.itemSize := itemSize;
      var bytes := new Byte[length * itemSize + 1];
      storage := bytes;
      writeTo := 0;
      readFrom := (length - 1) * itemSize;
      messagesWaiting := 0;
      readSlot := length - 1;
    }

    /** The storage part of `xQueueGenericReset`. */
    method Reset()
      requires Shaped()
      modifies this
      ensures Valid() && Contents() == []
    {
      messagesWaiting := 0;
      writeTo := 0;
      readFrom := (length - 1) * itemSize;
      readSlot := length - 1;
    }

    /** `memcpy` into the storage. */
    method CopyBytes(item: seq<Byte>, to: nat)
      requires to + |item| <= storage.Length
      modifies storage
      ensures storage[to..to + |item|] == item
      ensures forall x :: 0 <= x < storage.Length && !(to <= x < to + |item|) ==> storage[x] == old(storage[x])
    {
      var i := 0;
      while i < |item|
        invariant 0 <= i <= |item| && storage[to..to + i] == item[..i]
        invariant forall x :: 0 <= x < storage.Length && !(to <= x < to + |item|) ==> storage[x] == old(storage[x])
      {
        storage[to + i] := item[i];
        i := i + 1;
      }
    }

    /** The same into a slot. */
    method Store(item: seq<Byte>, to: nat, ghost k: nat)
      requires Shaped() && k < length && |item| == itemSize && to == k * itemSize
      modifies storage
      ensures ItemAt(k) == item
      ensures forall j :: 0 <= j < length && j != k ==> ItemAt(j) == old(ItemAt(j))
    {
      SlotBounds(itemSize, length, k, k);
      ghost var before := storage[..];
      CopyBytes(item, to);
      forall j | 0 <= j < length && j != k
        ensures ItemAt(j) == old(ItemAt(j))
      {
        OtherSlot(itemSize, length, before, storage[..], j, k);
      }
    }

    /** The queueSEND_TO_BACK part of `prvCopyDataToQueue`. */
    method StoreBack(item: seq<Byte>)
      requires Valid() && messagesWaiting < length && |item| == itemSize > 0
      modifies this`writeTo, storage
      ensures writeTo == Slot(length, readSlot, messagesWaiting + 1) * itemSize
      ensures ItemAt(Slot(length, readSlot, messagesWaiting)) == item
      ensures forall k ::
                0 <= k < length && k != Slot(length, readSlot, messagesWaiting) ==> ItemAt(k) == old(ItemAt(k))
    {
      ghost var w := Slot(length, readSlot, messagesWaiting);
      Store(item, writeTo, w);
      writeTo := writeTo + itemSize;
      SlotBounds(itemSize, length, w, w);
      if w + 1 < length {
        SlotBounds(itemSize, length, w + 1, w + 1);
      }
      if writeTo >= length * itemSize {
        writeTo := 0;
      }
    }

    /** The other part: the item goes where the last one read was, and the read pointer steps back. */
    method StoreFront(item: seq<Byte>)
      requires Valid() && |item| == itemSize > 0
      modifies this`readFrom, this`readSlot, storage
      ensures readSlot == (if old(readSlot) == 0 then length - 1 else old(readSlot) - 1)
                  && readFrom == readSlot * itemSize
      ensures ItemAt(old(readSlot)) == item
      ensures forall k :: 0 <= k < length && k != old(readSlot) ==> ItemAt(k) == old(ItemAt(k))
    {
      Store(item, readFrom, readSlot);
      SlotBefore(itemSize, readSlot);
      SlotBefore(itemSize, length);
      if readFrom < itemSize {
        readFrom := length * itemSize - itemSize;
      } else {
        readFrom := readFrom - itemSize;
      }
      readSlot := if readSlot == 0 then length - 1 else readSlot - 1;
    }

    /** `prvCopyDataToQueue` on anything but a mutex. */
    method CopyDataToQueue(item: seq<Byte>, position: Position)
      requires Valid() && |item| == itemSize
      requires messagesWaiting < length || position == Overwrite
      requires position == Overwrite ==> length == 1
      modifies this, storage
      ensures messagesWaiting == CountAfterSend(old(messagesWaiting), itemSize, position)
      ensures Valid() && Contents() == AfterSend(old(Contents()), item, position)
      ensures itemSize == 0 ==>
                storage[..] == old(storage[..]) && readFrom == old(readFrom) && writeTo == old(writeTo)
                    && readSlot == old(readSlot)
    {
      if itemSize == 0 {
        messagesWaiting := if messagesWaiting == MAX_UBASE then 0 else messagesWaiting + 1;
      } else if position == ToBack {
        StoreBack(item);
        messagesWaiting := messagesWaiting + 1;
      } else {
        PutFront(item, position);
      }
    }

    /** The branch for queueSEND_TO_FRONT and queueOVERWRITE. */
    method PutFront(item: seq<Byte>, position: Position)
      requires Valid() && |item| == itemSize > 0 && position != ToBack
      requires messagesWaiting < length || position == Overwrite
      requires position == Overwrite ==> length == 1
      modifies this, storage
      ensures messagesWaiting == CountAfterSend(old(messagesWaiting), itemSize, position)
      ensures Valid() && Contents() == Sent(old(Contents()), item, position)
    {
      ghost var before, r := Contents(), readSlot;
      StoreFront(item);
      if position == Overwrite {
        if messagesWaiting > 0 {
          messagesWaiting := messagesWaiting - 1;
        }
      }
      messagesWaiting := messagesWaiting + 1;
      OtherSlots(length, r);
      InFront(r, before, item);
      assert before[..messagesWaiting - 1] == if position == Overwrite then [] else before;
    }

    /** Behind an item put in front the others follow in order. */
    lemma InFront(r: nat, before: seq<seq<Byte>>, item: seq<Byte>)
      requires Shaped() && itemSize > 0 && r < length && 0 < messagesWaiting <= length
      requires readSlot == (if r == 0 then length - 1 else r - 1) && readFrom == readSlot * itemSize
      requires writeTo == Slot(length, r, messagesWaiting - 1) * itemSize && ItemAt(r) == item
      requires messagesWaiting - 1 <= |before|
      requires forall i :: 0 <= i < messagesWaiting - 1 ==> before[i] == ItemAt(Slot(length, r, i))
      ensures Valid() && Contents() == [item] + before[..messagesWaiting - 1]
    {
      Shift(length, readSlot);
      assert Slot(length, readSlot, 0) == r;
      hide Slot;
      forall i | 0 <= i < messagesWaiting
        ensures Contents()[i] == ([item] + before[..messagesWaiting - 1])[i]
      {
        assert i > 0 ==> Slot(length, readSlot, i) == Slot(length, r, i - 1);
      }
    }

    /** `prvCopyDataFromQueue`: the read pointer moves on to the item it copies out. */
    method CopyDataFromQueue() returns (item: seq<Byte>)
      requires Valid() && 0 < messagesWaiting
      modifies this`readFrom, this`readSlot
      ensures item == old(Contents())[0]
      ensures itemSize > 0 ==> readSlot == Slot(length, old(readSlot), 0)
      ensures readSlot < length && readFrom == readSlot * itemSize
      ensures itemSize == 0 ==> readSlot == old(readSlot)
    {
      item := [];
      if itemSize != 0 {
        ghost var r := Slot(length, readSlot, 0);
        assert (readSlot + 1) * itemSize == readSlot * itemSize + itemSize;
        if readSlot + 1 < length {
          SlotBounds(itemSize, length, readSlot + 1, readSlot + 1);
        }
        readFrom := readFrom + itemSize;
        if readFrom >= length * itemSize {
          readFrom := 0;
        }
        readSlot := r;
        SlotBounds(itemSize, length, r, r);
        item := storage[readFrom..readFrom + itemSize];
        assert old(Contents())[0] == ItemAt(r);
      }
    }

    /** `xQueueReceiveFromISR`, and the same part of `xQueueGenericReceive`. */
    method Receive() returns (received: bool, item: seq<Byte>)
      requires Valid()
      modifies this
      ensures Valid() && received == (old(messagesWaiting) > 0)
      ensures if received then [item] + Contents() == old(Contents()) else Contents() == old(Contents())
    {
      received, item := messagesWaiting > 0, [];
      if received {
        ghost var before, r := Contents(), readSlot;
        item := CopyDataFromQueue();
        messagesWaiting := messagesWaiting - 1;
        ReadOn(r, before);
      }
    }

    /** Behind the first item the others follow in order. */
    lemma ReadOn(r: nat, before: seq<seq<Byte>>)
      requires Shaped() && r < length && messagesWaiting < (if itemSize == 0 then MAX_UBASE else length)
      requires readSlot == (if itemSize == 0 then r else Slot(length, r, 0)) && readFrom == readSlot * itemSize
      requires writeTo == if itemSize == 0 then 0 else Slot(length, r, messagesWaiting + 1) * itemSize
      requires |before| == messagesWaiting + 1
      requires forall i :: 0 <= i < |before| ==> before[i] == if itemSize == 0 then [] else ItemAt(Slot(length, r, i))
      ensures Valid() && Contents() == before[1..]
    {
      Shift(length, r);
      assert itemSize > 0 ==> writeTo == Slot(length, readSlot, messagesWaiting) * itemSize;
      assert forall i :: 0 <= i < messagesWaiting ==> Contents()[i] == before[i + 1];
    }

    /** `xQueuePeekFromISR`, and the same part of `xQueueGenericReceive`. */
    method Peek() returns (received: bool, item: seq<Byte>)
      requires Valid()
      modifies this`readFrom, this`readSlot
      ensures Valid() && received == (messagesWaiting > 0) && Contents() == old(Contents())
      ensures received ==> item == Contents()[0]
    {
      received, item := messagesWaiting > 0, [];
      if received {
        ghost var r := readSlot;
        var originalReadPosition := readFrom;
        item := CopyDataFromQueue();
        readFrom := originalReadPosition;
        readSlot := r;
      }
    }

    /** `xQueueGenericSendFromISR`, and the same part of `xQueueGenericSend`. */
    method Send(item: seq<Byte>, position: Position) returns (sent: bool)
      requires Valid() && |item| == itemSize
      requires position == Overwrite ==> length == 1
      modifies this, storage
      ensures sent == (old(messagesWaiting) < length || position == Overwrite)
      ensures messagesWaiting == if sent then CountAfterSend(old(messagesWaiting), itemSize, position)
                else old(messagesWaiting)
      ensures Valid() && Contents() == if sent then AfterSend(old(Contents()), item, position) else old(Contents())
      ensures sent && position == ToBack ==> Contents() == old(Contents()) + [item]
      ensures sent && position == ToFront ==> Contents() == [item] + old(Contents())
      ensures sent && position == Overwrite && itemSize > 0 ==> Contents() == [item]
      ensures sent && position == Overwrite && itemSize == 0 ==>
                messagesWaiting == if old(messagesWaiting) == MAX_UBASE then 0 else old(messagesWaiting) + 1
    {
      ghost var before := Contents();
      assert itemSize == 0 ==> forall i :: 0 <= i < |before| ==> before[i] == [];
      sent := messagesWaiting < length || position == Overwrite;
      if sent {
        CopyDataToQueue(item, position);
      }
    }
  }

  // ----- Runs -----

  /** What an operation does to the items: it puts one behind them all, takes the one at the front, or neither. */
  datatype Transfer = Put(item: seq<Byte>) | Got(item: seq<Byte>) | Neither

  ghost predicate Transfers(items: seq<seq<Byte>>, e: Transfer, items': seq<seq<Byte>>) {
    match e
    case Put(item) => items' == items + [item]
    case Got(item) => items == [item] + items'
    case Neither => items' == items
  }

  ghost function AllPut(es: seq<Transfer>): seq<seq<Byte>> {
    if es == [] then [] else AllPut(es[..|es| - 1]) + if es[|es| - 1].Put? then [es[|es| - 1].item] else []
  }

  ghost function AllGot(es: seq<Transfer>): seq<seq<Byte>> {
    if es == [] then [] else AllGot(es[..|es| - 1]) + if es[|es| - 1].Got? then [es[|es| - 1].item] else []
  }

  /** First in, first out: over any run of sends to the back and receives, what has been received, followed by what is
      still in the queue, is what was in it at the start followed by what has been sent, item by item. */
  lemma {:induction false} FirstInFirstOut(contents: seq<seq<seq<Byte>>>, es: seq<Transfer>)
    requires |contents| == |es| + 1
    requires forall i :: 0 <= i < |es| ==> Transfers(contents[i], es[i], contents[i + 1])
    ensures AllGot(es) + contents[|es|] == contents[0] + AllPut(es)
    decreases |es|
  {
    if es != [] {
      var n := |es| - 1;
      var items, items' := contents[n], contents[n + 1];
      FirstInFirstOut(contents[..n + 1], es[..n]);
      assert Transfers(items, es[n], items');
      TransferStep(contents[0], AllPut(es[..n]), AllGot(es[..n]), items, es[n], items');
    }
  }

  lemma TransferStep(start: seq<seq<Byte>>, put: seq<seq<Byte>>, got: seq<seq<Byte>>, items: seq<seq<Byte>>,
                     e: Transfer,
                     items': seq<seq<Byte>>)
    requires got + items == start + put && Transfers(items, e, items')
    ensures (got + if e.Got? then [e.item] else []) + items' == start + (put + if e.Put? then [e.item] else [])
  {
    match e
    case Put(item) =>
      assert got + [] == got && got + (items + [item]) == got + items + [item];
      assert start + put + [item] == start + (put + [item]);
    case Got(item) =>
      assert got + [item] + items' == got + ([item] + items') && put + [] == put;
    case Neither =>
      assert got + [] == got && put + [] == put;
  }

  /** Each step of such a run is one of these. */
  method SendOrReceive(queue: Queue, item: seq<Byte>, receives: bool) returns (ghost e: Transfer)
    requires queue.Valid() && |item| == queue.itemSize
    modifies queue, queue.storage
    ensures queue.Valid() && Transfers(old(queue.Contents()), e, queue.Contents())
    ensures receives == e.Got? || e.Neither?
  {
    if receives {
      var received, got := queue.Receive();
      e := if received then Got(got) else Neither;
    } else {
      var sent := queue.Send(item, ToBack);
      e := if sent then Put(item) else Neither;
    }
  }

  /** A binary semaphore that is given and then overwritten: it can be taken twice. */
  method OverwriteFull() returns (semaphore: Queue, counted: nat, first: bool, second: bool)
    ensures semaphore.length == 1 && semaphore.itemSize == 0 && counted == 2 && first && second
  {
    semaphore := new Queue(1, 0);
    var given := semaphore.Send([], ToBack);
    var overwritten := semaphore.Send([], Overwrite);
    counted := semaphore.messagesWaiting;
    var item;
    first, item := semaphore.Receive();
    second, item := semaphore.Receive();
  }

  /** Only the last item may lie in the slot read last. */
  lemma OtherSlots(length: nat, readSlot: nat)
    requires readSlot < length
    ensures forall i :: 0 <= i < length - 1 ==> Slot(length, readSlot, i) != readSlot
  {
  }

  lemma Shift(length: nat, readSlot: nat)
    requires readSlot < length
    ensures forall i :: 0 <= i < length ==> Slot(length, Slot(length, readSlot, 0), i) == Slot(length, readSlot, i + 1)
  {
  }

  /** The message count after a send, as the branches of `prvCopyDataToQueue` compute it. */
  function CountAfterSend(count: nat, itemSize: nat, position: Position): nat {
    if itemSize != 0 && position == Overwrite && count > 0 then count - 1 + 1
    else if count == MAX_UBASE then 0 else count + 1
  }

  /** An accepted send keeps the count within the length exactly when it is not an overwrite of a full
      queue without storage: a semaphore that is overwritten counts past its maximum. */
  lemma CountWithinLength(count: nat, length: nat, itemSize: nat, position: Position)
    requires count <= length <= MAX_UBASE && (count < length || position == Overwrite)
         && (position == Overwrite ==> length == 1)
    ensures CountAfterSend(count, itemSize, position) <= length <==>
              !(position == Overwrite && itemSize == 0 && count == length)
  {
  }
}
