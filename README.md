# RingBuffer: a verified model of a bounded circular buffer

`RingBuffer<T>` (Java, `org.example`) is a fixed-capacity FIFO buffer for
producers and consumers. It keeps its elements in a circular array `buffer` of
length `capacity`. `head` is the slot read next, `tail` the slot written next,
and `count` the number of live elements. Outside the constructor, every
access to `head`, `tail`, `count` and `buffer` happens under a `ReentrantLock`.
The constructor sets all fields without the lock, before the object is shared.
`getCapacity` reads the final `capacity` without the lock. The null checks
of `put` and `offer` run before the lock is taken and read no shared state.
`isEmpty` and `isFull` compare the result of `size()` after its lock is
released. `put` and `take` wait on the conditions `notFull` and `notEmpty`
until they can go ahead.

This project models the sequential state machine that those locked sections update:

- `ring_layout.dfy` (module `RingLayout`) holds pure functions and lemmas about
  the circular layout. `Layout(contents, head, n)` is the whole slot array of a
  buffer whose oldest element sits at `head`: the `|contents|` slots from
  `head` onwards, modulo `n`, hold the elements in order, and every other slot
  holds `None` (Java's `null`). The lemmas prove how appending and removing the
  first element change that array, and that exactly `|contents|` slots are live.
- `ring_buffer.dfy` (module `RingBuffers`) holds the class `RingBuffer<T>`.
  `buffer` and `capacity` are `const` fields, like the Java `final` fields.
  `head`, `tail` and `count` are mutable fields, and the ghost field `Contents`
  holds the abstract FIFO contents. `Valid()` is the representation invariant:
  - `0 <= count <= capacity`;
  - `head` and `tail` lie in `[0, capacity)`;
  - `tail == (head + count) % capacity`;
  - the array length equals `capacity`;
  - `buffer[..] == Layout(Contents, head, capacity)`.

  Every method keeps `Valid()` and states its new `Contents` in terms of the old.
- `ring_buffer_scenarios.dfy` (module `RingBufferScenarios`) holds client
  methods. They replay the single-threaded unit-test scenarios, and one states
  the FIFO law for any sequence of items. Each is proved from the class
  contracts alone.

Slots are `array<Option<T>>`, with `None` for an empty slot. Items passed to
`put` and `offer` are `Option<T>`, so the null argument is part of the input.
Exceptions become a `Result` value: `IllegalArgumentException` is
`InvalidArgument` and `NullPointerException` is `NullElement`. A Dafny
constructor cannot fail, so the Java constructor is the static method `Create`.
`Create` checks the capacity and then calls the constructor `Init`, which only
initialises the fields. The capacity argument is a Java `int` (`int32`).
`Valid()` keeps `capacity <= 2^31 - 1`, so `tail + 1` and `head + 1` never
overflow in the source. That is why the model's unbounded `int` arithmetic
matches Java's here.

## Model

| member | source | states |
|---|---|---|
| RingLayout.Advance | src/main/java/org/example/RingBuffer.java:69 | `(i + 1) % n` stays in `[0, n)` and is `i + 1`, or `0` when `i` is the last slot |
| RingLayout.LayoutWindow | src/main/java/org/example/RingBuffer.java:22-26 | in the layout, the k-th element sits in slot `(head + k) % n`, and every slot outside the live window is null |
| RingLayout.LayoutAppend | src/main/java/org/example/RingBuffer.java:68-70 | appending `x` writes `Some(x)` into slot `(head + count) % n`, the tail, and leaves every other slot as it was |
| RingLayout.LayoutRemoveFirst | src/main/java/org/example/RingBuffer.java:92-94 | the oldest element is in slot `head`; dropping it nulls that slot, and the rest occupies the same slots, starting at the advanced head |
| RingLayout.LayoutLiveCount | src/main/java/org/example/RingBuffer.java:22-26 | exactly `count` slots of the array are non-null |
| RingLayout.LiveCountFill | src/main/java/org/example/RingBuffer.java:68 | writing an item into a null slot adds exactly one live slot |
| RingBuffers.RingBuffer.Slots | src/main/java/org/example/RingBuffer.java:22-26 | under the invariant, `buffer[(head + k) % capacity]` is the k-th oldest element, slots outside the window are null, and exactly `count` slots are non-null |
| RingBuffers.RingBuffer.Init | src/main/java/org/example/RingBuffer.java:42-46 | a fresh array of `capacity` null slots, `head = tail = count = 0`, empty contents, invariant established |
| RingBuffers.RingBuffer.Create | src/main/java/org/example/RingBuffer.java:38-47 | `capacity <= 0` gives `InvalidArgument` and no buffer; otherwise a fresh, valid, empty buffer of that capacity with `head = tail = count = 0` |
| RingBuffers.RingBuffer.Insert | src/main/java/org/example/RingBuffer.java:68-70 | when not full, the item is appended at the end of the contents, `count` grows by one, `head` stays, and the invariant is kept across wraparound |
| RingBuffers.RingBuffer.Remove | src/main/java/org/example/RingBuffer.java:92-95 | when not empty, the result is the first element, it is removed from the contents, `count` shrinks by one, `tail` stays, and the invariant is kept |
| RingBuffers.RingBuffer.Put | src/main/java/org/example/RingBuffer.java:57-76 | a null item gives `NullElement` and changes nothing; otherwise, once there is room, the item is appended |
| RingBuffers.RingBuffer.Take | src/main/java/org/example/RingBuffer.java:85-102 | on a non-empty buffer, returns and removes the oldest element |
| RingBuffers.RingBuffer.Offer | src/main/java/org/example/RingBuffer.java:112-132 | null gives `NullElement`; a full buffer gives `false`; neither changes any state; otherwise the result is `true` and the item is appended |
| RingBuffers.RingBuffer.Poll | src/main/java/org/example/RingBuffer.java:140-157 | null exactly when the buffer was empty, and then nothing changes; otherwise returns and removes the oldest element |
| RingBuffers.RingBuffer.Size | src/main/java/org/example/RingBuffer.java:164-171 | the number of live elements, between 0 and the capacity |
| RingBuffers.RingBuffer.IsEmpty | src/main/java/org/example/RingBuffer.java:178-180 | true exactly when the contents are empty |
| RingBuffers.RingBuffer.IsFull | src/main/java/org/example/RingBuffer.java:187-189 | true exactly when the number of elements equals the capacity |
| RingBuffers.RingBuffer.GetCapacity | src/main/java/org/example/RingBuffer.java:196-198 | the capacity fixed at construction, which is positive and equal to the array length |
| RingBuffers.RingBuffer.Clear | src/main/java/org/example/RingBuffer.java:204-217 | every slot becomes null, `head = tail = count = 0`, the contents are empty, and the capacity and array are kept |
| RingBufferScenarios.CreationScenario | src/test/java/org/example/RingBufferTest.java:34-47 | a new buffer of capacity 3 reports capacity 3, empty and not full; capacities 0 and -1 give `InvalidArgument` |
| RingBufferScenarios.NullScenario | src/test/java/org/example/RingBufferTest.java:59-64 | `put(null)` and `offer(null)` give `NullElement` and the size stays 0 |
| RingBufferScenarios.FifoScenario | src/test/java/org/example/RingBufferTest.java:66-76 | put 1, 2, 3 then take three times gives 1, 2, 3 |
| RingBufferScenarios.WraparoundScenario | src/test/java/org/example/RingBufferTest.java:78-92 | with capacity 3, the order stays 1, 2, 3, 4 across the wraparound of the indices |
| RingBufferScenarios.OfferPollScenario | src/test/java/org/example/RingBufferTest.java:94-110 | offer 1, 2, 3 succeed and offer 4 is refused when full; poll gives 1, 2, 3, then null, and the buffer is then empty |
| RingBufferScenarios.SingleSlotScenario | src/test/java/org/example/RingBufferTest.java:333-347 | a new buffer of capacity 1 is empty and not full; one put makes it full and not empty; take returns 42 and empties it |
| RingBufferScenarios.SizeStateScenario | src/test/java/org/example/RingBufferTest.java:112-134 | with capacity 3, size, isEmpty and isFull give 0/true/false when new, 1/false/false after one put, 3/false/true when full, and 2/false/false after a take |
| RingBufferScenarios.ClearScenario | src/test/java/org/example/RingBufferTest.java:136-151 | after clear, the size is 0, the buffer is empty and not full, and it accepts and returns 10 |
| RingBufferScenarios.MixedScenario | src/test/java/org/example/RingBufferTest.java:315-331 | with capacity 3: offer 1 and 2 give true, put 3 succeeds, offer 4 gives false; poll gives 1 and 2, take gives 3, and a last poll gives null |
| RingBufferScenarios.FifoLaw | src/test/java/org/example/RingBufferTest.java:66-76 | offering up to capacity items to any empty valid buffer returns true for every one, and as many polls return them in order and leave the buffer empty |

## Left out

- The lock, the conditions `notEmpty` and `notFull`, and `await`, `signal` and `signalAll` (RingBuffer.java:28-30, 62-66, 72-74, 86-90, 97-100, 127, 152, 213). Outside the constructor, every read and write of `head`, `tail`, `count` and `buffer` happens under the lock. The constructor sets all fields without it, before the object is shared. `capacity` is final, and the null checks read no shared state. So a single-threaded object shows every state a caller can observe. Which waiter wakes, and when, is not modelled. Nor is the staleness of an `isEmpty` or `isFull` answer under concurrent use: both compare a size read under a lock that is already released.
- RingBuffers.RingBuffer.Put: models only the path after the wait loop has exited, so a non-null item requires `count < capacity`. Blocking while the buffer is full is a scheduling matter and is not modelled.
- RingBuffers.RingBuffer.Take: models only the path after the wait loop has exited, so it requires `count > 0`. Blocking while the buffer is empty is not modelled.
- `InterruptedException`: interruption of a waiting `put` or `take` leaves the state unchanged. It has no meaning without threads, so it is not modelled.
- The multi-threaded tests (RingBufferTest.java:153-313) are about thread scheduling, latches and timing, not about the data structure.
- The unchecked cast `(T[]) new Object[capacity]` (RingBuffer.java:43) is modelled as an array of `Option<T>` filled with `None`.
- Java's element type may hold `null`; here an item is an `Option<T>`. The model checks for `None` where the source checks for `null`.
