/**
 * The bounded FIFO ring of libtools (src/lib/libtools/ring.c): a circular
 * array with a `head` index (next slot to write) and a `tail` index (next
 * slot to read).  One slot is always kept free, so a ring of `size` slots
 * holds at most `size - 1` items.  The mutex and the enqueue/dequeue rate
 * tracking are not modelled: operations are sequential.
 */
module Ring {
  import opened Wrappers

  /** The index after `i` in a ring of `size` slots (the wrap of ring_full, ring_enq, ring_deq). */
  function Next(i: int, size: int): (r: int)
    requires 0 <= i
    ensures size > 0 && i < size ==> 0 <= r < size
    ensures i + 1 < size ==> r == i + 1
    ensures size > 0 && i < size ==> r == (i + 1) % size
  {
    if i + 1 >= size then 0 else i + 1
  }

  /** The number of stored items as ring_count computes it from the two indices. */
  function CountOf(head: int, tail: int, size: int): (n: int)
    requires 0 <= head < size && 0 <= tail < size
    ensures 0 <= n < size
    ensures n == (head - tail) % size
  {
    if head >= tail then head - tail else (head + size) - tail
  }

  /** The most items a ring of `size` slots can hold. */
  function Capacity(size: nat): nat
  {
    if size == 0 then 0 else size - 1
  }

  /** Enqueueing into a non-full ring raises the count by exactly one. */
  lemma EnqueueRaisesCount(head: int, tail: int, size: int)
    requires 0 <= head < size && 0 <= tail < size
    requires Next(head, size) != tail
    ensures CountOf(Next(head, size), tail, size) == CountOf(head, tail, size) + 1
  {
  }

  /** Dequeueing from a non-empty ring lowers the count by exactly one. */
  lemma DequeueLowersCount(head: int, tail: int, size: int)
    requires 0 <= head < size && 0 <= tail < size
    requires head != tail
    ensures CountOf(head, Next(tail, size), size) == CountOf(head, tail, size) - 1
  {
  }

  /** The full test of ring_full is exactly "the count has reached size - 1". */
  lemma FullIffAtCapacity(head: int, tail: int, size: int)
    requires 0 <= head < size && 0 <= tail < size
    ensures Next(head, size) == tail <==> CountOf(head, tail, size) == Capacity(size)
  {
  }

  /** The items held by the slots `buf` when reading from `tail` up to (not including) `head`. */
  function Slots<T>(buf: seq<T>, head: int, tail: int): (s: seq<T>)
    requires 0 <= head <= |buf| && 0 <= tail <= |buf|
    ensures |s| == if tail <= head then head - tail else |buf| - tail + head
  {
    if tail <= head then buf[tail..head] else buf[tail..] + buf[..head]
  }

  class RingData<T(0)> {
    var head: int
    var tail: int
    const size: nat
    const data: array<T>
    /** The queued items, oldest first. */
    ghost var Contents: seq<T>

    /**
     * The index invariant: both indices inside the array (both 0 for a ring
     * of size 0), and Contents is what the slots from tail to head hold.
     */
    ghost predicate Valid()
      reads this, data
    {
      data.Length == size &&
      (size == 0 ==> head == 0 && tail == 0) &&
      (size > 0 ==> 0 <= head < size && 0 <= tail < size) &&
      Contents == Slots(data[..], head, tail)
    }

    /** ring_init: both indices 0, `size` slots, nothing stored. */
    constructor (numElems: nat)
      ensures Valid() && fresh(data)
      ensures head == 0 && tail == 0 && size == numElems
      ensures Contents == []
    {
      data := new T[numElems];
      size := numElems;
      head, tail := 0, 0;
      Contents := [];
    }

    /** At most size - 1 items are ever stored (0 for a ring of size 0). */
    lemma AtMostCapacity()
      requires Valid()
      ensures |Contents| <= Capacity(size)
      ensures size > 0 ==> |Contents| == CountOf(head, tail, size)
    {
    }

    /** ring_empty: the indices coincide exactly when nothing is stored. */
    method IsEmpty() returns (empty: bool)
      requires Valid()
      ensures empty <==> head == tail
      ensures empty <==> Contents == []
    {
      empty := head == tail;
    }

    /** ring_full: the slot after head is the tail exactly when size - 1 items are stored. */
    method IsFull() returns (full: bool)
      requires Valid()
      ensures full <==> Next(head, size) == tail
      ensures full <==> |Contents| == Capacity(size)
    {
      if size > 0 {
        FullIffAtCapacity(head, tail, size);
      }
      var newHead := head + 1;
      if newHead >= size {
        newHead := 0;
      }
      full := newHead == tail;
    }

    /** ring_count: the number of stored items, at most size - 1. */
    method Count() returns (n: int)
      requires Valid()
      ensures n == |Contents|
      ensures 0 <= n <= Capacity(size)
    {
      if head >= tail {
        n := head - tail;
      } else {
        n := (head + size) - tail;
      }
      AtMostCapacity();
    }

    /**
     * ring_enq: on a full ring returns 1 and changes nothing; otherwise
     * writes `x` at the old head, advances head and returns 0.
     */
    method Enqueue(x: T) returns (err: int)
      requires Valid()
      modifies this`head, this`Contents, data
      ensures Valid()
      ensures tail == old(tail)
      ensures err == (if old(Next(head, size)) == tail then 1 else 0)
      ensures err == (if |old(Contents)| == Capacity(size) then 1 else 0)
      ensures err == 1 ==> head == old(head) && data[..] == old(data[..]) && Contents == old(Contents)
      ensures err == 0 ==> head == Next(old(head), size) && data[..] == old(data[..])[old(head) := x]
      ensures err == 0 ==> Contents == old(Contents) + [x]
    {
      if size > 0 {
        FullIffAtCapacity(head, tail, size);
      }
      var newHead := head + 1;
      if newHead >= size {
        newHead := 0;
      }
      if newHead == tail {
        return 1;
      }
      data[head] := x;
      head := newHead;
      Contents := Contents + [x];
      if tail <= old(head) {
        if tail <= head {
          assert data[tail..head] == data[tail..old(head)] + [data[old(head)]];
        } else {
          assert data[..head] == [];
          assert data[tail..] == data[tail..old(head)] + [data[old(head)]];
        }
      } else {
        assert data[..head] == data[..old(head)] + [x];
        assert data[tail..] == old(data[tail..]);
      }
      err := 0;
    }

    /**
     * ring_deq: on an empty ring returns NULL (None) and moves no index;
     * otherwise returns the oldest item and advances tail.
     */
    method Dequeue() returns (r: Option<T>)
      requires Valid()
      modifies this`tail, this`Contents
      ensures Valid()
      ensures head == old(head)
      ensures old(Contents) == [] ==> r == None && tail == old(tail) && Contents == []
      ensures old(Contents) != [] ==> r == Some(old(Contents)[0]) && tail == Next(old(tail), size)
      ensures old(Contents) != [] ==> Contents == old(Contents)[1..]
    {
      if head == tail {
        return None;
      }
      var x := data[tail];
      tail := tail + 1;
      if tail >= size {
        tail := 0;
      }
      Contents := Contents[1..];
      if old(tail) <= head {
        assert data[tail..head] == old(Contents)[1..];
      } else if tail == 0 {
        assert data[..head] == old(Contents)[1..];
      } else {
        assert data[tail..] + data[..head] == old(Contents)[1..];
      }
      r := Some(x);
    }
  }
}
