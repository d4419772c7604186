/**
 * The bounded admission queue of build requests
 * (SS14.MapServer/MapProcessing/Services/ProcessQueue.cs): a bounded channel in
 * drop-write mode, guarded so that a full queue rejects the request.
 */
module Queue {
  import opened Wrappers
  import opened Entities

  /** `ProcessingConfiguration.ProcessQueueMaxSize`'s default. */
  const DefaultProcessQueueMaxSize: int := 6

  function Min(a: int, b: int): int { if a <= b then a else b }

  /**
   * The outcome of offering `xs` one after another to a queue holding `q` with
   * room for `capacity`: which offers were accepted, and the final contents.
   */
  function OfferAll<T>(q: seq<T>, capacity: int, xs: seq<T>): (r: (seq<bool>, seq<T>))
    ensures |r.0| == |xs|
    decreases |xs|
  {
    if xs == [] then ([], q)
    else
      var accepted := |q| != capacity;
      var rest := OfferAll(if accepted then q + [xs[0]] else q, capacity, xs[1..]);
      ([accepted] + rest.0, rest.1)
  }

  /**
   * Offering to a queue that respects its capacity accepts exactly the first
   * `capacity - |q|` items, in order, and rejects every later one.
   */
  lemma {:induction false} OfferAllAcceptsPrefix<T>(q: seq<T>, capacity: int, xs: seq<T>)
    requires |q| <= capacity
    ensures var n := Min(|xs|, capacity - |q|);
      OfferAll(q, capacity, xs).1 == q + xs[..n]
      && forall i :: 0 <= i < |xs| ==> (OfferAll(q, capacity, xs).0[i] <==> i < capacity - |q|)
    decreases |xs|
  {
    if xs != [] {
      var accepted := |q| != capacity;
      var q' := if accepted then q + [xs[0]] else q;
      OfferAllAcceptsPrefix(q', capacity, xs[1..]);
      var n := Min(|xs|, capacity - |q|);
      if accepted {
        assert q' + xs[1..][..n - 1] == q + xs[..n];
      } else {
        assert n == 0;
      }
      forall i | 0 <= i < |xs|
        ensures OfferAll(q, capacity, xs).0[i] <==> i < capacity - |q|
      {
        if i > 0 {
          assert OfferAll(q, capacity, xs).0[i] == OfferAll(q', capacity, xs[1..]).0[i - 1];
        }
      }
    }
  }

  /** With the default capacity, an empty queue admits six requests offered in a row and refuses the seventh. */
  lemma DefaultCapacityAdmitsSix<T>(xs: seq<T>)
    requires |xs| == 7
    ensures OfferAll([], DefaultProcessQueueMaxSize, xs).1 == xs[..6]
    ensures forall i :: 0 <= i < 6 ==> OfferAll([], DefaultProcessQueueMaxSize, xs).0[i]
    ensures !OfferAll([], DefaultProcessQueueMaxSize, xs).0[6]
  {
    OfferAllAcceptsPrefix([], DefaultProcessQueueMaxSize, xs);
  }

  class ProcessQueue {
    const maxItemCount: int
    /** The channel's buffer, oldest first. */
    var items: seq<ProcessItem>

    ghost predicate Valid()
      reads this
    {
      1 <= maxItemCount && |items| <= maxItemCount
    }

    /** `Count`: the number of items in the channel. */
    function Count(): (n: int)
      reads this
      ensures n == |items| && n >= 0
    {
      |items|
    }

    constructor (processQueueMaxSize: int)
      requires processQueueMaxSize >= 1
      ensures Valid() && maxItemCount == processQueueMaxSize && items == []
    {
      maxItemCount := processQueueMaxSize;
      items := [];
    }

    /** A write to a bounded channel in `DropWrite` mode: a full channel drops the new item. */
    method ChannelWrite(item: ProcessItem)
      requires Valid()
      modifies this
      ensures Valid()
      ensures items == if |old(items)| < maxItemCount then old(items) + [item] else old(items)
    {
      if |items| < maxItemCount {
        items := items + [item];
      }
    }

    /**
     * `TryQueueProcessItem`: false, with the queue unchanged, when it holds
     * `maxItemCount` items; otherwise the item joins at the back.
     */
    method TryQueueProcessItem(item: ProcessItem) returns (ok: bool)
      requires Valid()
      modifies this
      ensures Valid()
      ensures ok <==> old(Count()) != maxItemCount
      ensures items == if ok then old(items) + [item] else old(items)
      ensures (items, ok) == (OfferAll(old(items), maxItemCount, [item]).1, OfferAll(old(items), maxItemCount, [item]).0[0])
    {
      if Count() == maxItemCount {
        return false;
      }
      ChannelWrite(item);
      ok := true;
    }

    /** `DequeueAsync` once an item is there: the oldest item leaves, the rest keep their order. */
    method Dequeue() returns (item: ProcessItem)
      requires Valid() && |items| > 0
      modifies this
      ensures Valid()
      ensures item == old(items)[0] && items == old(items)[1..]
      ensures Count() == old(Count()) - 1
    {
      item := items[0];
      items := items[1..];
    }
  }

  /**
   * The constructor: the capacity comes from `ProcessQueueMaxSize`; the
   * bounded channel refuses a capacity below one.
   */
  method NewProcessQueue(processQueueMaxSize: int) returns (r: Option<ProcessQueue>)
    ensures r.None? <==> processQueueMaxSize < 1
    ensures r.Some? ==> fresh(r.value) && r.value.Valid()
    ensures r.Some? ==> r.value.maxItemCount == processQueueMaxSize && r.value.items == []
  {
    if processQueueMaxSize < 1 {
      return None;
    }
    var q := new ProcessQueue(processQueueMaxSize);
    r := Some(q);
  }
}
