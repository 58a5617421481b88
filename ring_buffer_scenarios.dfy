/*
 * Clients of RingBuffer that replay the single-threaded scenarios the
 * repository's unit tests exercise, and the FIFO law for any sequence of
 * items that fits.  Each is proved from the method contracts alone.
 */
module RingBufferScenarios {
  import opened RingLayout
  import opened RingBuffers

  /**
   * A new buffer of capacity 3 reports capacity 3, is empty and not full;
   * capacities 0 and -1 are rejected with InvalidArgument.
   */
  method CreationScenario() returns (cap: int, empty: bool, full: bool, zero: Result<RingBuffer<int>>, negative: Result<RingBuffer<int>>)
    ensures cap == 3 && empty && !full
    ensures zero == Err(InvalidArgument) && negative == Err(InvalidArgument)
  {
    var r := RingBuffer<int>.Create(3);
    var b := r.value;
    cap := b.GetCapacity();
    empty := b.IsEmpty();
    full := b.IsFull();
    zero := RingBuffer<int>.Create(0);
    negative := RingBuffer<int>.Create(-1);
  }

  /** put and offer of null both fail with NullElement and leave the size at zero. */
  method NullScenario() returns (put: Result<()>, offer: Result<bool>, size: int)
    ensures put == Err(NullElement) && offer == Err(NullElement) && size == 0
  {
    var r := RingBuffer<int>.Create(3);
    var b := r.value;
    put := b.Put(None);
    offer := b.Offer(None);
    size := b.Size();
  }

  /** put 1, 2, 3 then take three times: 1, 2, 3 come back in that order. */
  method FifoScenario() returns (taken: seq<int>)
    ensures taken == [1, 2, 3]
  {
    var r := RingBuffer<int>.Create(3);
    var b := r.value;
    var _ := b.Put(Some(1));
    var _ := b.Put(Some(2));
    var _ := b.Put(Some(3));
    var x := b.Take();
    var y := b.Take();
    var z := b.Take();
    taken := [x, y, z];
  }

  /**
   * Fill a buffer of capacity 3, take one, put 4: the indices wrap round
   * and the order is still 1, then 2, 3, 4.
   */
  method WraparoundScenario() returns (taken: seq<int>)
    ensures taken == [1, 2, 3, 4]
  {
    var r := RingBuffer<int>.Create(3);
    var b := r.value;
    var _ := b.Put(Some(1));
    var _ := b.Put(Some(2));
    var _ := b.Put(Some(3));
    var w := b.Take();
    var _ := b.Put(Some(4));
    var x := b.Take();
    var y := b.Take();
    var z := b.Take();
    taken := [w, x, y, z];
  }

  /**
   * Capacity 3: offer 1, 2, 3 succeed, offer 4 is refused on the full
   * buffer, then poll gives 1, 2, 3 and finally null, and the buffer is
   * empty.
   */
  method OfferPollScenario() returns (offered: seq<Result<bool>>, full: bool, polled: seq<Option<int>>, emptyAfter: bool)
    ensures offered == [Ok(true), Ok(true), Ok(true), Ok(false)] && full
    ensures polled == [Some(1), Some(2), Some(3), None] && emptyAfter
  {
    var r := RingBuffer<int>.Create(3);
    var b := r.value;
    var o1 := b.Offer(Some(1));
    var o2 := b.Offer(Some(2));
    var o3 := b.Offer(Some(3));
    var o4 := b.Offer(Some(4));
    offered := [o1, o2, o3, o4];
    full := b.IsFull();
    var p1 := b.Poll();
    var p2 := b.Poll();
    var p3 := b.Poll();
    var p4 := b.Poll();
    polled := [p1, p2, p3, p4];
    emptyAfter := b.IsEmpty();
  }

  /**
   * A new buffer of capacity 1 is empty and not full; a single put makes it
   * full and not empty; taking the item back empties it.
   */
  method SingleSlotScenario() returns (emptyAtStart: bool, fullAtStart: bool, fullAfterPut: bool, emptyAfterPut: bool, taken: int, emptyAfterTake: bool)
    ensures emptyAtStart && !fullAtStart
    ensures fullAfterPut && !emptyAfterPut && taken == 42 && emptyAfterTake
  {
    var r := RingBuffer<int>.Create(1);
    var b := r.value;
    emptyAtStart := b.IsEmpty();
    fullAtStart := b.IsFull();
    var _ := b.Put(Some(42));
    fullAfterPut := b.IsFull();
    emptyAfterPut := b.IsEmpty();
    taken := b.Take();
    emptyAfterTake := b.IsEmpty();
  }

  /**
   * Capacity 3: size, isEmpty and isFull read 0, true, false when new;
   * 1, false, false after one put; 3, false, true once full; and 2, false,
   * false after a take.
   */
  method SizeStateScenario() returns (sizes: seq<int>, empties: seq<bool>, fulls: seq<bool>)
    ensures sizes == [0, 1, 3, 2]
    ensures empties == [true, false, false, false]
    ensures fulls == [false, false, true, false]
  {
    var r := RingBuffer<int>.Create(3);
    var b := r.value;
    sizes, empties, fulls := [], [], [];
    var n := b.Size();
    var e := b.IsEmpty();
    var f := b.IsFull();
    sizes, empties, fulls := sizes + [n], empties + [e], fulls + [f];
    var _ := b.Put(Some(1));
    n := b.Size();
    e := b.IsEmpty();
    f := b.IsFull();
    sizes, empties, fulls := sizes + [n], empties + [e], fulls + [f];
    var _ := b.Put(Some(2));
    var _ := b.Put(Some(3));
    n := b.Size();
    e := b.IsEmpty();
    f := b.IsFull();
    sizes, empties, fulls := sizes + [n], empties + [e], fulls + [f];
    var _ := b.Take();
    n := b.Size();
    e := b.IsEmpty();
    f := b.IsFull();
    sizes, empties, fulls := sizes + [n], empties + [e], fulls + [f];
  }

  /** After clear the buffer is empty and not full, and works again from scratch. */
  method ClearScenario() returns (sizeAfterClear: int, empty: bool, full: bool, sizeAfterPut: int, taken: int)
    ensures sizeAfterClear == 0 && empty && !full && sizeAfterPut == 1 && taken == 10
  {
    var r := RingBuffer<int>.Create(3);
    var b := r.value;
    var _ := b.Put(Some(1));
    var _ := b.Put(Some(2));
    b.Clear();
    sizeAfterClear := b.Size();
    empty := b.IsEmpty();
    full := b.IsFull();
    var _ := b.Put(Some(10));
    sizeAfterPut := b.Size();
    taken := b.Take();
  }

  /**
   * Capacity 3, mixing the two kinds of call: offer 1 and 2 succeed, put 3
   * fills the buffer, offer 4 is refused; poll gives 1 and 2, take gives 3,
   * and a last poll gives null.
   */
  method MixedScenario() returns (offered: seq<Result<bool>>, put: Result<()>, refused: Result<bool>, polled: seq<Option<int>>, taken: int, last: Option<int>)
    ensures offered == [Ok(true), Ok(true)] && put == Ok(()) && refused == Ok(false)
    ensures polled == [Some(1), Some(2)] && taken == 3 && last == None
  {
    var r := RingBuffer<int>.Create(3);
    var b := r.value;
    var o1 := b.Offer(Some(1));
    var o2 := b.Offer(Some(2));
    offered := [o1, o2];
    put := b.Put(Some(3));
    refused := b.Offer(Some(4));
    var p1 := b.Poll();
    var p2 := b.Poll();
    polled := [p1, p2];
    taken := b.Take();
    last := b.Poll();
  }

  /**
   * The FIFO law: offering any n <= capacity items to an empty buffer
   * accepts every one, and n polls then return exactly those items in the
   * same order and leave the buffer empty, wherever head stood.
   */
  method FifoLaw<T>(b: RingBuffer<T>, items: seq<T>) returns (accepted: seq<Result<bool>>, taken: seq<T>)
    requires b.Valid() && b.Contents == [] && |items| <= b.capacity
    modifies b, b.buffer
    ensures b.Valid() && b.Contents == []
    ensures accepted == seq(|items|, _ => Ok(true))
    ensures taken == items
  {
    accepted := [];
    for i := 0 to |items|
      invariant b.Valid() && b.Contents == items[..i]
      invariant accepted == seq(i, _ => Ok(true))
    {
      var ok := b.Offer(Some(items[i]));
      accepted := accepted + [ok];
      assert items[..i + 1] == items[..i] + [items[i]];
    }
    taken := [];
    for i := 0 to |items|
      invariant b.Valid() && b.Contents == items[i..] && taken == items[..i]
    {
      var x := b.Poll();
      taken := taken + [x.value];
      assert items[..i + 1] == items[..i] + [items[i]];
    }
  }
}
