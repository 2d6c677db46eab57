/** A client's bounded send channel: the hub's non-blocking send, and the write pump's drain. */
module SendQueue {

  const CAPACITY: nat := 256

  /** What a non-blocking send does to the channel: append, or leave it alone when full. */
  function Offer<T>(queue: seq<T>, data: T): seq<T>
  {
    if |queue| < CAPACITY then queue + [data] else queue
  }

  function OfferAll<T>(queue: seq<T>, all: seq<T>): seq<T>
    decreases |all|
  {
    if all == [] then queue else OfferAll(Offer(queue, all[0]), all[1..])
  }

  /** Senders only ever append, and never beyond the capacity. */
  lemma {:induction false} OfferAllExtends<T>(queue: seq<T>, all: seq<T>)
    requires |queue| <= CAPACITY
    ensures queue <= OfferAll(queue, all)
    ensures |OfferAll(queue, all)| <= CAPACITY
    decreases |all|
  {
    if all != [] { OfferAllExtends(Offer(queue, all[0]), all[1..]); }
  }

  class Channel<T> {
    var buffer: seq<T>

    ghost predicate Valid()
      reads this
    {
      |buffer| <= CAPACITY
    }

    constructor ()
      ensures Valid() && buffer == []
    {
      buffer := [];
    }

    method TrySend(data: T) returns (sent: bool)
      requires Valid()
      modifies this
      ensures Valid()
      ensures sent == (|old(buffer)| < CAPACITY)
      ensures buffer == Offer(old(buffer), data)
    {
      sent := |buffer| < CAPACITY;
      if sent {
        buffer := buffer + [data];
      }
    }

    /** A receive that would block on an empty channel; the caller shows it does not. */
    method Receive() returns (data: T)
      requires Valid() && buffer != []
      modifies this
      ensures Valid() && data == old(buffer)[0] && buffer == old(buffer)[1..]
    {
      data := buffer[0];
      buffer := buffer[1..];
    }

    /** What any number of broadcasters send between two steps of the pump. */
    method Interference(arrivals: seq<T>)
      requires Valid()
      modifies this
      ensures Valid() && buffer == OfferAll(old(buffer), arrivals)
      ensures old(buffer) <= buffer
    {
      OfferAllExtends(buffer, arrivals);
      var i := 0;
      while i < |arrivals|
        invariant i <= |arrivals| && Valid()
        invariant OfferAll(buffer, arrivals[i..]) == OfferAll(old(buffer), arrivals)
      {
        assert arrivals[i..][1..] == arrivals[i + 1..];
        var _ := TrySend(arrivals[i]);
        i := i + 1;
      }
    }

    /** The pump's drain after a wake-up: it fixes n := len(send) and receives n times, while
        broadcasters keep sending (`arrivals[i]` comes before the i-th receive) and until a
        write fails. No receive blocks, and what is written is what was queued when the
        length was taken, in order, up to the first failed write. */
    method Drain(arrivals: seq<seq<T>>, writeOk: seq<bool>) returns (written: seq<T>, failed: bool)
      requires Valid() && |arrivals| == |writeOk| == |buffer|
      modifies this
      ensures Valid()
      ensures |written| <= |old(buffer)| && written == old(buffer)[..|written|]
      ensures forall i :: 0 <= i < |written| ==> writeOk[i]
      ensures failed <==> |written| < |old(buffer)|
      ensures failed ==> !writeOk[|written|]
    {
      var n := |buffer|;
      written := [];
      for i := 0 to n
        invariant Valid() && |written| == i
        invariant written == old(buffer)[..i]
        invariant forall j :: 0 <= j < i ==> writeOk[j]
        invariant old(buffer)[i..] <= buffer
      {
        Interference(arrivals[i]);
        var data := Receive();
        if !writeOk[i] {
          return written, true;
        }
        written := written + [data];
      }
      failed := false;
    }
  }
}
