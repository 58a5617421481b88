/*
 * The sequential state machine of the bounded blocking buffer RingBuffer<T>:
 * a fixed array of slots with a read index head, a write index tail and a
 * count of live elements.  In the Java class, outside the constructor,
 * every access to head, tail, count and the array happens under its lock.
 * The constructor sets all fields without it, before the object is shared;
 * getCapacity reads the final capacity without it, and the null checks of
 * put and offer read no shared state.  So each operation is modelled here
 * as one method on a single-threaded object; the blocking operations put and
 * take are modelled from the point where their wait loop has exited.
 */
module RingBuffers {
  import opened RingLayout

  /** The exceptions the buffer throws outside of waiting. */
  datatype Error =
    | InvalidArgument  // IllegalArgumentException: a capacity that is not positive
    | NullElement      // NullPointerException: a null item given to put or offer

  /** The outcome of an operation that returns a value or throws. */
  datatype Result<R> = Ok(value: R) | Err(error: Error)

  /** Java's int, the type of the capacity argument. */
  newtype int32 = x: int | -0x8000_0000 <= x <= IntMax

  class RingBuffer<T> {
    /** The slot array; None is an empty (null) slot. Its length never changes. */
    const buffer: array<Option<T>>
    /** The capacity fixed at construction. */
    const capacity: int
    /** The slot of the oldest element, the next one read. */
    var head: int
    /** The slot the next element is written to. */
    var tail: int
    /** The number of live elements. */
    var count: int

    /** The live elements, oldest first. */
    ghost var Contents: seq<T>

    /**
     * The representation invariant: the indices lie in range, tail is head
     * advanced by count, the abstract contents have count elements, and the
     * array holds exactly those elements in the count slots starting at head
     * (modulo the capacity) with every other slot null.
     */
    ghost predicate Valid()
      reads this, buffer
    {
      0 < capacity <= IntMax &&
      buffer.Length == capacity &&
      0 <= count <= capacity &&
      0 <= head < capacity &&
      0 <= tail < capacity &&
      tail == (head + count) % capacity &&
      |Contents| == count &&
      buffer[..] == Layout(Contents, head, capacity)
    }

    /**
     * What the invariant means for the array: the k-th oldest element sits
     * in slot (head + k) % capacity, every slot outside those count slots is
     * null, and exactly count slots are non-null.
     */
    lemma Slots()
      requires Valid()
      ensures forall k :: 0 <= k < count ==> buffer[(head + k) % capacity] == Some(Contents[k])
      ensures forall j :: 0 <= j < capacity && Offset(j, head, capacity) >= count ==> buffer[j] == None
      ensures LiveCount(buffer[..]) == count
    {
      var s := buffer[..];
      LayoutWindow(Contents, head, capacity);
      LayoutLiveCount(Contents, head, capacity);
      forall k | 0 <= k < count
        ensures buffer[(head + k) % capacity] == Some(Contents[k])
      {
        assert buffer[(head + k) % capacity] == s[(head + k) % capacity];
      }
    }

    /** The field initialisation of the constructor, once the capacity has been accepted. */
    constructor Init(capacity: int)
      requires 0 < capacity <= IntMax
      ensures Valid() && fresh(buffer)
      ensures this.capacity == capacity && buffer.Length == capacity
      ensures head == 0 && tail == 0 && count == 0
      ensures Contents == []
      ensures forall j :: 0 <= j < capacity ==> buffer[j] == None
    {
      this.capacity := capacity;
      buffer := new Option<T>[capacity](_ => None);
      head, tail, count := 0, 0, 0;
      Contents := [];
      new;
      LayoutEmpty<T>(0, capacity);
      ModWrap(0, capacity);
    }

    /**
     * The constructor RingBuffer(capacity): a capacity of zero or less is
     * rejected with InvalidArgument and no buffer is made; otherwise the
     * result is an empty buffer of exactly that capacity.
     */
    static method Create(capacity: int32) returns (r: Result<RingBuffer<T>>)
      ensures capacity <= 0 <==> r.Err?
      ensures r.Err? ==> r.error == InvalidArgument
      ensures r.Ok? ==> fresh(r.value) && fresh(r.value.buffer) && r.value.Valid()
      ensures r.Ok? ==> r.value.capacity == capacity as int && r.value.Contents == []
      ensures r.Ok? ==> r.value.head == 0 && r.value.tail == 0 && r.value.count == 0
    {
      if capacity <= 0 {
        return Err(InvalidArgument);
      }
      var b := new RingBuffer<T>.Init(capacity as int);
      r := Ok(b);
    }

    /** The insertion shared by put and offer: write at tail, advance tail, count one more. */
    method Insert(item: T)
      requires Valid() && count < capacity
      modifies this, buffer
      ensures Valid()
      ensures Contents == old(Contents) + [item]
      ensures count == old(count) + 1 && head == old(head)
    {
      LayoutAppend(Contents, head, capacity, item);
      ModWrap(head + count, capacity);
      buffer[tail] := Some(item);
      tail := Advance(tail, capacity);
      count := count + 1;
      Contents := Contents + [item];
      ModWrap(head + count, capacity);
    }

    /** The removal shared by take and poll: read slot head, null it, advance head, count one less. */
    method Remove() returns (item: T)
      requires Valid() && 0 < count
      modifies this, buffer
      ensures Valid()
      ensures item == old(Contents)[0] && Contents == old(Contents)[1..]
      ensures count == old(count) - 1 && tail == old(tail)
    {
      LayoutRemoveFirst(Contents, head, capacity);
      ModWrap(head + count, capacity);
      item := buffer[head].value;
      buffer[head] := None;
      head := Advance(head, capacity);
      count := count - 1;
      Contents := Contents[1..];
      ModWrap(head + count, capacity);
    }

    /**
     * put, once its wait loop has seen room: a null item is rejected before
     * any state is touched; otherwise the item is appended at the end.
     */
    method Put(item: Option<T>) returns (r: Result<()>)
      requires Valid()
      requires item.Some? ==> count < capacity
      modifies this, buffer
      ensures Valid()
      ensures item.None? ==> r == Err(NullElement) && unchanged(this, buffer)
      ensures item.Some? ==> r == Ok(()) && Contents == old(Contents) + [item.value]
    {
      if item.None? {
        return Err(NullElement);
      }
      Insert(item.value);
      r := Ok(());
    }

    /** take, once its wait loop has seen an element: the oldest element is removed and returned. */
    method Take() returns (item: T)
      requires Valid() && 0 < count
      modifies this, buffer
      ensures Valid()
      ensures item == old(Contents)[0] && Contents == old(Contents)[1..]
    {
      item := Remove();
    }

    /**
     * offer: a null item is rejected before any state is touched; on a full
     * buffer the result is false and nothing changes; otherwise the item is
     * appended and the result is true.
     */
    method Offer(item: Option<T>) returns (r: Result<bool>)
      requires Valid()
      modifies this, buffer
      ensures Valid()
      ensures item.None? ==> r == Err(NullElement)
      ensures item.Some? ==> r == Ok(old(count) < capacity)
      ensures r != Ok(true) ==> unchanged(this, buffer)
      ensures r == Ok(true) ==> Contents == old(Contents) + [item.value]
    {
      if item.None? {
        return Err(NullElement);
      }
      if count == capacity {
        return Ok(false);
      }
      Insert(item.value);
      r := Ok(true);
    }

    /**
     * poll: on an empty buffer the result is null and nothing changes;
     * otherwise the oldest element is removed and returned.
     */
    method Poll() returns (item: Option<T>)
      requires Valid()
      modifies this, buffer
      ensures Valid()
      ensures item.None? <==> old(Contents) == []
      ensures item.None? ==> unchanged(this, buffer)
      ensures item.Some? ==> item.value == old(Contents)[0] && Contents == old(Contents)[1..]
    {
      if count == 0 {
        return None;
      }
      var x := Remove();
      item := Some(x);
    }

    /** size: the number of live elements. */
    method Size() returns (n: int)
      requires Valid()
      ensures n == |Contents| && 0 <= n <= capacity
    {
      n := count;
    }

    /** isEmpty: true exactly when size() is zero, that is when there are no live elements. */
    method IsEmpty() returns (b: bool)
      requires Valid()
      ensures b <==> Contents == []
    {
      var n := Size();
      b := n == 0;
    }

    /** isFull: true exactly when size() equals the capacity. */
    method IsFull() returns (b: bool)
      requires Valid()
      ensures b <==> |Contents| == capacity
    {
      var n := Size();
      b := n == capacity;
    }

    /** getCapacity: the fixed capacity, which is the length of the slot array and positive. */
    method GetCapacity() returns (c: int)
      requires Valid()
      ensures c == capacity && c == buffer.Length && 0 < c
    {
      c := capacity;
    }

    /**
     * clear: every slot is nulled, head, tail and count go back to zero and
     * the capacity stays; the buffer is then empty.
     */
    method Clear()
      requires Valid()
      modifies this, buffer
      ensures Valid()
      ensures Contents == [] && head == 0 && tail == 0 && count == 0
      ensures forall j :: 0 <= j < buffer.Length ==> buffer[j] == None
    {
      for i := 0 to capacity
        invariant forall j :: 0 <= j < i ==> buffer[j] == None
      {
        buffer[i] := None;
      }
      head, tail, count := 0, 0, 0;
      Contents := [];
      LayoutEmpty<T>(0, capacity);
      ModWrap(0, capacity);
    }
  }
}
