/** The bounded queue of a telemetry writer, its batching consumer and its sentinel shutdown. */
module TelemetryWriter {
  import opened Options

  datatype Item<+E> = Event(event: E) | Sentinel

  /** `maxsize` of zero or less means unbounded. */
  predicate HasRoom<E>(queue: seq<Item<E>>, maxsize: int) {
    maxsize <= 0 || |queue| < maxsize
  }

  /** The events among some queue items, in order. */
  function Events<E>(items: seq<Item<E>>): seq<E> {
    if items == [] then []
    else
      var front := Events(items[..|items| - 1]);
      match items[|items| - 1]
      case Event(e) => front + [e]
      case Sentinel => front
  }

  predicate AllEvents<E>(items: seq<Item<E>>) {
    forall i :: 0 <= i < |items| ==> items[i].Event?
  }

  /** What filling up a batch may take: `k` events off the head, stopping short of the limit only at the
      end of the queue or at a sentinel, which is then removed too. */
  predicate Fills<E>(queue: seq<Item<E>>, limit: nat, k: nat, stopping: bool) {
    && k <= |queue| && k <= limit
    && AllEvents(queue[..k])
    && (stopping <==> k < limit && k < |queue| && queue[k].Sentinel?)
    && (!stopping ==> k == limit || k == |queue|)
  }

  function Left<E>(queue: seq<Item<E>>, k: nat, stopping: bool): seq<Item<E>>
    requires k <= |queue| && (stopping ==> k < |queue|)
  {
    if stopping then queue[k + 1..] else queue[k..]
  }

  class AbstractWriter<E> {
    const maxsize: int
    const batchSize: nat
    var queue: seq<Item<E>>
    var dropped: nat

    constructor (maxsize: int, batchSize: int)
      ensures this.maxsize == maxsize && this.batchSize == (if batchSize < 1 then 1 else batchSize)
      ensures queue == [] && dropped == 0 && Bounded()
    {
      this.maxsize := maxsize;
      this.batchSize := if batchSize < 1 then 1 else batchSize;
      queue, dropped := [], 0;
    }

    /** A bounded queue never holds more than it may. */
    predicate Bounded()
      reads this`queue
    {
      maxsize > 0 ==> |queue| <= maxsize
    }

    /** Enqueue without blocking; drop and count exactly when a bounded queue is full. */
    method Submit(event: E)
      modifies this
      ensures maxsize <= 0 || |old(queue)| < maxsize ==>
                queue == old(queue) + [Event(event)] && dropped == old(dropped)
      ensures maxsize > 0 && |old(queue)| >= maxsize ==>
                queue == old(queue) && dropped == old(dropped) + 1
      ensures old(Bounded()) ==> Bounded() && (dropped != old(dropped) ==> |old(queue)| == maxsize > 0)
    {
      if HasRoom(queue, maxsize) {
        queue := queue + [Event(event)];
      } else {
        dropped := dropped + 1;
      }
    }

    /** The enqueueing of the sentinel, once the queue has room for it. */
    method PutSentinel()
      requires maxsize <= 0 || |queue| < maxsize
      modifies this`queue
      ensures Bounded() && queue == old(queue) + [Sentinel]
    {
      assert HasRoom(queue, maxsize);
      queue := queue + [Sentinel];
    }

    /** The inner loop of the consumer: grow the batch that holds `first`. */
    method FillBatch(first: E) returns (batch: seq<E>, stopping: bool, ghost k: nat)
      requires batchSize >= 1
      modifies this`queue
      ensures Fills(old(queue), batchSize - 1, k, stopping)
      ensures batch == [first] + Events(old(queue)[..k]) && 1 <= |batch| <= batchSize
      ensures !stopping ==> |batch| == batchSize || queue == []
      ensures queue == Left(old(queue), k, stopping)
      ensures old(Bounded()) ==> Bounded()
    {
      batch, stopping, k := [first], false, 0;
      ghost var whole := queue;
      while |batch| < batchSize && queue != [] && !stopping
        invariant k <= |whole| && k <= batchSize - 1 && |batch| == k + 1
        invariant AllEvents(whole[..k])
        invariant batch == [first] + Events(whole[..k])
        invariant stopping ==> k < batchSize - 1 && k < |whole| && whole[k].Sentinel?
        invariant queue == Left(whole, k, stopping)
        decreases |queue|
      {
        var item := queue[0];
        queue := queue[1..];
        if item.Sentinel? {
          stopping := true;
        } else {
          assert whole[..k + 1][..k] == whole[..k];
          batch := batch + [item.event];
          k := k + 1;
        }
      }
    }
  }

  lemma EventsSnoc<E>(items: seq<Item<E>>, item: Item<E>)
    ensures Events(items + [item]) == Events(items) + (if item.Event? then [item.event] else [])
  {
    assert (items + [item])[..|items|] == items;
  }

  lemma {:induction false} EventsConcat<E>(a: seq<Item<E>>, b: seq<Item<E>>)
    ensures Events(a + b) == Events(a) + Events(b)
  {
    if b == [] {
      assert a + b == a;
    } else {
      EventsConcat(a, b[..|b| - 1]);
      assert (a + b)[..|a + b| - 1] == a + b[..|b| - 1];
    }
  }
}
