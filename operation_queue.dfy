/** The bounded circular operation queue of exe.c (OperationQueue, queue_init,
    enqueue, dequeue). The mutex and the two condition variables are not modelled:
    a producer's wait while the queue is full becomes the precondition of Enqueue,
    a worker's wait while it is empty the precondition of Dequeue. */
module OperationQueueModel {
  import opened BankTypes

  /** The `count` slots of the ring `buf` starting at `start` and wrapping around
      the end: slot i of the result is buffer slot (start + i) mod |buf|. */
  function Window(buf: seq<Operation>, start: int, count: int): (r: seq<Operation>)
    requires 0 <= start < |buf| && 0 <= count <= |buf|
    ensures |r| == count
    ensures forall i :: 0 <= i < count ==> r[i] == buf[(start + i) % |buf|]
    decreases count
  {
    if count == 0 then [] else Window(buf, start, count - 1) + [buf[(start + count - 1) % |buf|]]
  }

  /** The slot after `i` in a ring of MaxQueueSize slots. */
  function Next(i: int): (r: int)
    requires 0 <= i < MaxQueueSize
    ensures 0 <= r < MaxQueueSize
    ensures r == if i == MaxQueueSize - 1 then 0 else i + 1
  {
    (i + 1) % MaxQueueSize
  }

  /** Counting i slots on from Next(h) is counting i + 1 slots on from h, and so is
      taking Next of the slot i places on from h. */
  lemma NextShift(h: int, i: int)
    requires 0 <= h < MaxQueueSize && 0 <= i < MaxQueueSize
    ensures (Next(h) + i) % MaxQueueSize == (h + 1 + i) % MaxQueueSize
    ensures Next((h + i) % MaxQueueSize) == (h + 1 + i) % MaxQueueSize
  {
    if h == MaxQueueSize - 1 {
      assert (h + 1 + i) % MaxQueueSize == i % MaxQueueSize;
    }
  }

  /** Writing x into the free slot just past a window extends the window by x. */
  lemma WindowPush(buf: seq<Operation>, start: int, count: int, x: Operation)
    requires |buf| == MaxQueueSize && 0 <= start < MaxQueueSize && 0 <= count < MaxQueueSize
    ensures Window(buf[(start + count) % MaxQueueSize := x], start, count + 1) == Window(buf, start, count) + [x]
  {
    var nb := buf[(start + count) % MaxQueueSize := x];
    var before, after := Window(buf, start, count), Window(nb, start, count);
    forall i | 0 <= i < count
      ensures after[i] == before[i]
    {
      assert (start + i) % MaxQueueSize != (start + count) % MaxQueueSize;
    }
    assert after == before;
  }

  /** Dropping the oldest element of a window is moving its start one slot on. */
  lemma WindowPop(buf: seq<Operation>, start: int, count: int)
    requires |buf| == MaxQueueSize && 0 <= start < MaxQueueSize && 0 < count <= MaxQueueSize
    ensures Window(buf, start, count)[0] == buf[start]
    ensures Window(buf, Next(start), count - 1) == Window(buf, start, count)[1..]
  {
    var before, after := Window(buf, start, count), Window(buf, Next(start), count - 1);
    forall i | 0 <= i < count - 1
      ensures after[i] == before[i + 1]
    {
      NextShift(start, i);
    }
    assert after == before[1..];
  }

  class OperationQueue {
    var operations: array<Operation>
    var head: int
    var tail: int
    var size: int

    /** The ring invariant: the buffer has MaxQueueSize slots, head is a slot,
        size is within the capacity, and tail is the slot size places after head. */
    ghost predicate Valid()
      reads this
    {
      operations.Length == MaxQueueSize &&
      0 <= head < MaxQueueSize &&
      0 <= size <= MaxQueueSize &&
      tail == (head + size) % MaxQueueSize
    }

    /** The queued operations, oldest first. */
    ghost function Contents(): (s: seq<Operation>)
      requires Valid()
      reads this, operations
      ensures |s| == size
    {
      Window(operations[..], head, size)
    }

    /** queue_init (exe.c:49-57): an empty queue with head = tail = size = 0. */
    constructor Init()
      ensures Valid() && fresh(operations)
      ensures head == 0 && tail == 0 && size == 0
      ensures Contents() == []
    {
      operations := new Operation[MaxQueueSize](_ => TerminateOp);
      head, tail, size := 0, 0, 0;
    }

    /** enqueue (exe.c:59-71): the operation goes into the slot at tail, tail moves
        one slot on, and the abstract queue grows by this operation at its end. */
    method Enqueue(op: Operation)
      requires Valid()
      requires size < MaxQueueSize
      modifies this, operations
      ensures Valid() && operations == old(operations)
      ensures operations[..] == old(operations[..])[old(tail) := op]
      ensures head == old(head) && tail == Next(old(tail)) && size == old(size) + 1
      ensures Contents() == old(Contents()) + [op]
    {
      ghost var buf := operations[..];
      WindowPush(buf, head, size, op);
      NextShift(head, size);
      operations[tail] := op;
      tail := Next(tail);
      size := size + 1;
      assert operations[..] == buf[old(tail) := op];
    }

    /** dequeue (exe.c:73-86): the operation at head is returned, head moves one
        slot on, and the abstract queue loses exactly its oldest element. */
    method Dequeue() returns (op: Operation)
      requires Valid()
      requires size > 0
      modifies this
      ensures Valid() && operations == old(operations)
      ensures head == Next(old(head)) && tail == old(tail) && size == old(size) - 1
      ensures op == old(Contents())[0]
      ensures Contents() == old(Contents())[1..]
    {
      WindowPop(operations[..], head, size);
      op := operations[head];
      head := Next(head);
      size := size - 1;
    }
  }

  /** A producer/worker run on one queue: whatever is enqueued is dequeued in the
      same order, nothing lost or duplicated. */
  method FifoOrder(q: OperationQueue, a: Operation, b: Operation) returns (x: Operation, y: Operation)
    requires q.Valid() && q.size == 0
    modifies q, q.operations
    ensures x == a && y == b
  {
    q.Enqueue(a);
    q.Enqueue(b);
    x := q.Dequeue();
    y := q.Dequeue();
  }
}
