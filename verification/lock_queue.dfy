/** The mutex-protected FIFO of `utils/lock_queue.h`.  Every operation runs under the queue's own
    lock, so each is one atomic step for the rest of the runtime: the functions are those steps, and
    the class carries them out. */
module LockQueues {
  import opened Basics

  function Enqueued<T>(items: seq<T>, item: T): seq<T> {
    items + [item]
  }

  /** The front item, if there is one, and what stays behind it. */
  function Dequeued<T>(items: seq<T>): (Option<T>, seq<T>) {
    if items == [] then (None, []) else (Some(items[0]), items[1..])
  }

  /** A batch extended by the whole queue, and the queue afterwards. */
  function Drained<T>(before: seq<T>, items: seq<T>): (seq<T>, seq<T>) {
    (before + items, [])
  }

  class LockQueue<T> {
    var items: seq<T>

    constructor ()
      ensures items == []
    {
      items := [];
    }

    method Push(item: T)
      modifies this
      ensures items == Enqueued(old(items), item) == old(items) + [item]
    {
      items := items + [item];
    }

    method Pop() returns (front: Option<T>)
      modifies this
      ensures (front, items) == Dequeued(old(items))
      ensures front.None? <==> old(items) == []
      ensures front.Some? ==> [front.value] + items == old(items)
    {
      if items == [] {
        return None;
      }
      front := Some(items[0]);
      items := items[1..];
    }

    /** The draining loop. */
    method PopAll(before: seq<T>) returns (out: seq<T>)
      modifies this
      ensures (out, items) == Drained(before, old(items))
      ensures out == before + old(items) && items == []
    {
      out := before;
      while items != []
        invariant out + items == before + old(items)
        decreases |items|
      {
        out := out + [items[0]];
        items := items[1..];
      }
      assert out + [] == out;
    }
  }
}
