/** The FIFO buffer of `queue.go`: a slice appended to at the tail and
    resliced at the head. */
module Queues {
  import opened Wrappers

  /** One call on a queue, for reasoning about runs of calls. */
  datatype QueueOp<T> = Push(item: T) | PushAll(items: seq<T>) | Pop

  /** The items left and the item handed out by one call, as the three methods
      of Queue below promise. */
  function Apply<T>(items: seq<T>, op: QueueOp<T>): (seq<T>, Option<T>)
  {
    match op
    case Push(x) => (items + [x], None)
    case PushAll(xs) => (items + xs, None)
    case Pop => if items == [] then (items, None) else (items[1..], Some(items[0]))
  }

  /** The items left and the items handed out, in order, by a run of calls. */
  function Replay<T>(items: seq<T>, ops: seq<QueueOp<T>>): (seq<T>, seq<T>)
    decreases |ops|
  {
    if ops == [] then (items, [])
    else
      var (next, out) := Apply(items, ops[0]);
      var (last, outs) := Replay(next, ops[1..]);
      (last, (if out.Some? then [out.value] else []) + outs)
  }

  /** Everything a run of calls puts into the queue, in order. */
  function Enqueued<T>(ops: seq<QueueOp<T>>): seq<T>
  {
    if ops == [] then []
    else
      match ops[0]
      case Push(x) => [x] + Enqueued(ops[1..])
      case PushAll(xs) => xs + Enqueued(ops[1..])
      case Pop => Enqueued(ops[1..])
  }

  /** First in, first out: over any run of calls, what comes out followed by
      what is still inside is what was inside before followed by what went in. */
  lemma {:induction false} FifoOrder<T>(items: seq<T>, ops: seq<QueueOp<T>>)
    ensures Replay(items, ops).1 + Replay(items, ops).0 == items + Enqueued(ops)
    decreases |ops|
  {
    if ops != [] {
      var (next, out) := Apply(items, ops[0]);
      FifoOrder(next, ops[1..]);
      match ops[0]
      case Push(x) =>
        assert items + Enqueued(ops) == (items + [x]) + Enqueued(ops[1..]);
      case PushAll(xs) =>
        assert items + Enqueued(ops) == (items + xs) + Enqueued(ops[1..]);
      case Pop =>
        if items != [] {
          var (last, outs) := Replay(next, ops[1..]);
          calc {
            Replay(items, ops).1 + Replay(items, ops).0;
            ([items[0]] + outs) + last;
            [items[0]] + (outs + last);
            [items[0]] + (items[1..] + Enqueued(ops[1..]));
            { assert items == [items[0]] + items[1..]; }
            items + Enqueued(ops);
          }
        }
    }
  }

  class Queue<T> {
    var items: seq<T>

    /** NewQueue: an empty queue. */
    constructor ()
      ensures items == []
    {
      items := [];
    }

    method Enqueue(item: T)
      modifies this
      ensures items == old(items) + [item]
      ensures (items, None) == Apply(old(items), Push(item))
    {
      items := items + [item];
    }

    method EnqueueMultiple(more: seq<T>)
      modifies this
      ensures items == old(items) + more
      ensures (items, None) == Apply(old(items), PushAll(more))
    {
      items := items + more;
    }

    /** None is the source's `(zero, false)`. */
    method Dequeue() returns (head: Option<T>)
      modifies this
      ensures old(items) == [] ==> head == None && items == old(items)
      ensures old(items) != [] ==> head == Some(old(items)[0]) && items == old(items)[1..]
      ensures (items, head) == Apply(old(items), Pop)
    {
      if |items| == 0 {
        return None;
      }
      head := Some(items[0]);
      items := items[1..];
    }
  }
}
