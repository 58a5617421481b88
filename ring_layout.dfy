/*
 * The circular layout of a ring buffer, as pure functions over sequences.
 *
 * A ring buffer of capacity n keeps its live elements in the slots
 * head, head+1, ..., head+count-1 taken modulo n, oldest first; every
 * other slot holds the empty value (Java's null, here None).  Layout
 * computes the whole slot array from the abstract contents and head, so
 * the class's invariant can say "the array is exactly this".
 */
module RingLayout {

  /** A slot or a result that may hold nothing; None stands for Java's null. */
  datatype Option<T> = None | Some(value: T)

  /** Largest value of Java's int; the capacity is a Java int. */
  const IntMax: int := 0x7fff_ffff

  /**
   * The index after i, computed as (i + 1) % n: the step
   * tail = (tail + 1) % capacity of put and offer, and
   * head = (head + 1) % capacity of take and poll.
   */
  function Advance(i: int, n: int): (r: int)
    requires 0 <= i < n
    ensures 0 <= r < n
    ensures r == if i + 1 == n then 0 else i + 1
  {
    Slot(i, 1, n)
  }

  /** The slot holding the element at position k of the contents when the oldest one is at head. */
  function Slot(head: int, k: int, n: int): (r: int)
    requires 0 <= head < n && 0 <= k <= n
    ensures 0 <= r < n
    ensures r == if head + k < n then head + k else head + k - n
  {
    ModWrap(head + k, n);
    (head + k) % n
  }

  /** How far slot j lies after head, going round the ring: the inverse of Slot. */
  function Offset(j: int, head: int, n: int): (k: int)
    requires 0 <= j < n && 0 <= head < n
    ensures 0 <= k < n
    ensures Slot(head, k, n) == j
  {
    if head <= j then j - head else j - head + n
  }

  /** What slot number k of the window holds: the k-th element, or nothing past the end. */
  function Cell<T>(contents: seq<T>, k: int): Option<T>
    requires 0 <= k
  {
    if k < |contents| then Some(contents[k]) else None
  }

  /** The slot array of a buffer of capacity n whose oldest element sits at head. */
  ghost function Layout<T>(contents: seq<T>, head: int, n: int): (s: seq<Option<T>>)
    requires 0 <= head < n && |contents| <= n
    ensures |s| == n
  {
    seq(n, j requires 0 <= j < n => Cell(contents, Offset(j, head, n)))
  }

  /** x % n for 0 <= x < 2n: one subtraction of n at most. */
  lemma ModWrap(x: int, n: int)
    requires 0 < n && 0 <= x < 2 * n
    ensures x % n == if x < n then x else x - n
  {
  }

  /** Slot and Offset are inverse: position k of the window is slot Slot(head, k, n) and nothing else. */
  lemma {:induction false} OffsetOfSlot(head: int, k: int, n: int)
    requires 0 <= head < n && 0 <= k < n
    ensures Offset(Slot(head, k, n), head, n) == k
  {
  }

  /**
   * The live window and the cleared slots: position k of the contents is
   * stored in slot (head + k) % n, and every slot outside the window of
   * |contents| slots starting at head holds nothing.
   */
  lemma {:induction false} LayoutWindow<T>(contents: seq<T>, head: int, n: int)
    requires 0 <= head < n && |contents| <= n
    ensures forall k :: 0 <= k < |contents| ==>
      Layout(contents, head, n)[(head + k) % n] == Some(contents[k])
    ensures forall j :: 0 <= j < n && Offset(j, head, n) >= |contents| ==>
      Layout(contents, head, n)[j] == None
  {
    forall k | 0 <= k < |contents|
      ensures Layout(contents, head, n)[(head + k) % n] == Some(contents[k])
    {
      OffsetOfSlot(head, k, n);
    }
  }

  /** An empty buffer's slots all hold nothing, wherever head is. */
  lemma {:induction false} LayoutEmpty<T>(head: int, n: int)
    requires 0 <= head < n
    ensures Layout<T>([], head, n) == seq(n, _ => None)
  {
  }

  /**
   * Appending x to the contents writes Some(x) into the slot just past the
   * window, (head + |contents|) % n, and changes no other slot.
   */
  lemma {:induction false} LayoutAppend<T>(contents: seq<T>, head: int, n: int, x: T)
    requires 0 <= head < n && |contents| < n
    ensures Layout(contents + [x], head, n)
         == Layout(contents, head, n)[(head + |contents|) % n := Some(x)]
  {
    var t := Slot(head, |contents|, n);
    OffsetOfSlot(head, |contents|, n);
    var before, after := Layout(contents, head, n), Layout(contents + [x], head, n);
    forall j | 0 <= j < n
      ensures after[j] == before[t := Some(x)][j]
    {
      var k := Offset(j, head, n);
      if j != t {
        assert k != |contents|;
      }
    }
  }

  /**
   * Removing the oldest element: it is the one in slot head; the remaining
   * contents, now starting at the advanced head, occupy the same slots as
   * before, and slot head holds nothing.
   */
  lemma {:induction false} LayoutRemoveFirst<T>(contents: seq<T>, head: int, n: int)
    requires 0 <= head < n && 0 < |contents| <= n
    ensures Layout(contents, head, n)[head] == Some(contents[0])
    ensures Layout(contents[1..], Advance(head, n), n)
         == Layout(contents, head, n)[head := None]
  {
  }

  /** The number of slots of s that hold an element. */
  function LiveCount<T>(s: seq<Option<T>>): (c: nat)
    ensures c <= |s|
  {
    if s == [] then 0 else (if s[0].Some? then 1 else 0) + LiveCount(s[1..])
  }

  /** Storing an element into an empty slot adds one live slot. */
  lemma {:induction false} LiveCountFill<T>(s: seq<Option<T>>, t: int, x: T)
    requires 0 <= t < |s| && s[t] == None
    ensures LiveCount(s[t := Some(x)]) == LiveCount(s) + 1
  {
    if t == 0 {
      assert s[t := Some(x)][1..] == s[1..];
    } else {
      assert s[t := Some(x)][1..] == s[1..][t - 1 := Some(x)];
      LiveCountFill(s[1..], t - 1, x);
    }
  }

  /** A run of empty slots has no live slot. */
  lemma {:induction false} LiveCountNone<T>(n: nat)
    ensures LiveCount(seq<Option<T>>(n, _ => None)) == 0
  {
    if n > 0 {
      assert seq<Option<T>>(n, _ => None)[1..] == seq<Option<T>>(n - 1, _ => None);
      LiveCountNone<T>(n - 1);
    }
  }

  /** Exactly |contents| slots of the layout hold an element; all the others are null. */
  lemma {:induction false} LayoutLiveCount<T>(contents: seq<T>, head: int, n: int)
    requires 0 <= head < n && |contents| <= n
    ensures LiveCount(Layout(contents, head, n)) == |contents|
  {
    if contents == [] {
      LayoutEmpty<T>(head, n);
      LiveCountNone<T>(n);
    } else {
      var init, x := contents[..|contents| - 1], contents[|contents| - 1];
      assert contents == init + [x];
      LayoutLiveCount(init, head, n);
      LayoutAppend(init, head, n, x);
      OffsetOfSlot(head, |init|, n);
      LiveCountFill(Layout(init, head, n), Slot(head, |init|, n), x);
    }
  }
}
