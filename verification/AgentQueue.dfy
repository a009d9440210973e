/**
  The agent's bounded log queue. Each method runs under the queue's lock, so it
  is one step; a method that would wait does nothing and says so.
 */
module AgentQueue {
  import opened Options

  /** Counters are 64 bits wide and wrap. */
  const COUNTER_SIZE: nat := 0x1_0000_0000_0000_0000

  function Bound(maxSize: int): nat {
    if maxSize < 0 then 0 else maxSize
  }

  class Queue<T> {
    const maxSize: int
    var items: seq<T>
    var dropped: nat
    /** All that ever entered the queue, and all that ever left it. */
    ghost var entered: seq<T>
    ghost var left: seq<T>

    /** First in, first out, and never more than the bound inside. */
    ghost predicate Valid()
      reads this
    {
      entered == left + items && |items| <= Bound(maxSize) && dropped < COUNTER_SIZE
    }

    constructor (maxSize: int)
      ensures Valid() && this.maxSize == maxSize && items == [] && dropped == 0 && left == []
    {
      this.maxSize := maxSize;
      items, dropped, entered, left := [], 0, [], [];
    }

    method Push(item: T) returns (pushed: bool)
      requires Valid()
      modifies this
      ensures Valid() && dropped == old(dropped) && left == old(left)
      ensures pushed == (|old(items)| < maxSize)
      ensures items == if pushed then old(items) + [item] else old(items)
      ensures entered == if pushed then old(entered) + [item] else old(entered)
    {
      if |items| >= maxSize {
        return false;
      }
      items, entered := items + [item], entered + [item];
      return true;
    }

    method TryPush(item: T) returns (pushed: bool)
      requires Valid()
      modifies this
      ensures Valid() && left == old(left)
      ensures pushed == (|old(items)| < maxSize)
      ensures items == if pushed then old(items) + [item] else old(items)
      ensures entered == if pushed then old(entered) + [item] else old(entered)
      ensures dropped == if pushed then old(dropped) else (old(dropped) + 1) % COUNTER_SIZE
    {
      if |items| >= maxSize {
        dropped := (dropped + 1) % COUNTER_SIZE;
        return false;
      }
      items, entered := items + [item], entered + [item];
      return true;
    }

    method Pop() returns (item: Option<T>)
      requires Valid()
      modifies this
      ensures Valid() && dropped == old(dropped) && entered == old(entered)
      ensures item == if |old(items)| == 0 then None else Some(old(items)[0])
      ensures items == if |old(items)| == 0 then [] else old(items)[1..]
      ensures left == if item.Some? then old(left) + [item.value] else old(left)
    {
      if |items| == 0 {
        return None;
      }
      item := Some(items[0]);
      left := left + [items[0]];
      items := items[1..];
    }

    /** A batch of a negative size cannot be made: the call panics and takes nothing. */
    method PopBatch(max: int) returns (batch: seq<T>, panicked: bool)
      requires Valid()
      modifies this
      ensures Valid() && dropped == old(dropped) && entered == old(entered)
      ensures panicked <==> max < 0 && old(items) != []
      ensures batch + items == old(items)
      ensures |batch| == if max < 0 then 0 else if max < |old(items)| then max else |old(items)|
      ensures left == old(left) + batch
    {
      batch, panicked := [], false;
      if |items| == 0 {
        return;
      }
      var size := max;
      if size > |items| {
        size := |items|;
      }
      if size < 0 {
        return [], true;
      }
      batch := items[..size];
      left := left + batch;
      items := items[size..];
    }
  }
}
