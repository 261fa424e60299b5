/**
 * The ring buffer that carries requests, responses and market updates, as one thread sees it.
 * The interleavings of its two threads are the subject of module `SpscQueue`.
 */
module LFQueues {
  import opened Types
  import Ring = RingArithmetic

  /**
   * Which push the next `pop` hands out, by its position in the push history: none when the indices
   * coincide, otherwise the latest push that landed on the slot being read.
   */
  function Delivered(pushed: nat, taken: nat, size: nat): Option<nat>
    requires size > 0 && taken <= pushed
  {
    var outstanding := pushed - taken;
    if outstanding % size == 0 then None else Some(taken + size * (outstanding / size))
  }

  /** A queue of size n delivers the right item exactly while at most n - 1 items are outstanding. */
  lemma DeliversInOrderIff(pushed: nat, taken: nat, size: nat)
    requires size > 0 && taken <= pushed
    ensures Delivered(pushed, taken, size) == (if taken < pushed then Some(taken) else None)
            <==> pushed - taken < size
  {
    var d := pushed - taken;
    if d < size {
      Ring.Unique(d, size, 0, d);
    } else {
      Ring.Quotient(d, size);
      Ring.MulGrows(size, d / size);
    }
  }

  class LFQueue<T(0)> {
    const data: array<T>
    var nextWriteIndex: nat
    var nextReadIndex: nat
    ghost var pushed: seq<T>  // every item ever pushed
    ghost var taken: nat      // the number of pops that returned an item

    ghost predicate Valid()
      reads this, data
    {
      && data.Length > 0
      && taken <= |pushed|
      && nextWriteIndex == |pushed| % data.Length
      && nextReadIndex == taken % data.Length
      && forall k :: 0 <= k < |pushed| && |pushed| - data.Length <= k ==>
           data[k % data.Length] == pushed[k]
    }

    constructor (n: nat)
      requires n > 0
      ensures Valid() && fresh(data) && data.Length == n && pushed == [] && taken == 0
    {
      data := new T[n];
      nextWriteIndex, nextReadIndex := 0, 0;
      pushed, taken := [], 0;
    }

    /** Never refuses: the history always grows, even when an unread slot is overwritten. */
    method Push(item: T)
      requires Valid()
      modifies this`nextWriteIndex, this`pushed, data
      ensures Valid() && pushed == old(pushed) + [item]
      ensures nextWriteIndex == (old(nextWriteIndex) + 1) % data.Length
      ensures old(nextWriteIndex < data.Length) && data[..] == old(data[..][nextWriteIndex := item])
    {
      ghost var n := |pushed|;
      forall k | 0 <= k < n && n + 1 - data.Length <= k
        ensures k % data.Length != nextWriteIndex
      {
        Ring.DistinctSlots(k, n, data.Length);
      }
      data[nextWriteIndex] := item;
      Ring.Advance(n, data.Length);
      nextWriteIndex := (nextWriteIndex + 1) % data.Length;
      pushed := pushed + [item];
    }

    method Empty() returns (empty: bool)
      requires Valid()
      ensures empty <==> (|pushed| - taken) % data.Length == 0
      ensures empty <==> nextReadIndex == nextWriteIndex
    {
      Ring.SameSlot(taken, |pushed|, data.Length);
      return nextReadIndex == nextWriteIndex;
    }

    /** Returns the index of the slot to read: the source returns a pointer into `data_`. */
    method Pop() returns (slot: Option<nat>)
      requires Valid()
      modifies this`nextReadIndex, this`taken
      ensures Valid()
      ensures var d := Delivered(|pushed|, old(taken), data.Length);
        && slot.None? == d.None?
        && taken == old(taken) + (if d.Some? then 1 else 0)
        && (slot.Some? ==>
             && slot.value < data.Length
             && old(taken) <= d.value < |pushed|
             && data[slot.value] == pushed[d.value])
      ensures if slot.Some? then slot.value == old(nextReadIndex) && nextReadIndex == (slot.value + 1) % data.Length
              else nextReadIndex == old(nextReadIndex) == nextWriteIndex
    {
      var empty := Empty();
      slot := if !empty then Some(nextReadIndex) else None;
      if slot.Some? {
        ghost var d := |pushed| - taken;
        Ring.Decompose(d, data.Length);
        ghost var k := taken + data.Length * (d / data.Length);
        Ring.Quotient(d, data.Length);
        Ring.Unique(k - taken, data.Length, d / data.Length, 0);
        Ring.SameSlot(taken, k, data.Length);
        Ring.Advance(taken, data.Length);
        nextReadIndex := (nextReadIndex + 1) % data.Length;
        taken := taken + 1;
      }
    }
  }

  /** The two output queues are in order. */
  ghost predicate Ready(responses: LFQueue<ClientResponse>, updates: LFQueue<MarketUpdate>)
    reads responses, responses.data, updates, updates.data
  {
    responses.Valid() && updates.Valid()
  }
}
