/** The per-client queue with a saturation policy, so that a slow consumer never blocks the producer.
    Calls are taken whole: with `DropOldest` the producer also stores to the consumer's cursor. */
module ConsumerQueue {
  import opened Bits
  import opened RingIndex
  import opened Wrappers

  datatype DropPolicy = DropNewest | DropOldest

  datatype PushResult = Enqueued | DroppedNewest | EvictedOldest

  // ---------------------------------------------------------------------------------------------
  // What the queue means
  // ---------------------------------------------------------------------------------------------

  /** A bounded FIFO offered one item. */
  function Offer<T>(contents: seq<T>, capacity: nat, item: T, policy: DropPolicy): (seq<T>, PushResult) {
    if |contents| < capacity then (contents + [item], Enqueued)
    else match policy
      case DropNewest => (contents, DroppedNewest)
      case DropOldest => ((if contents == [] then [] else contents[1..]) + [item], EvictedOldest)
  }

  function Take<T>(contents: seq<T>): (seq<T>, Option<T>) {
    if contents == [] then ([], None) else (contents[1..], Some(contents[0]))
  }

  /** The slots from `tail` to `head` read out in cursor order. */
  function Window<T>(slots: seq<T>, bits: nat, tail: nat, head: nat): (w: seq<T>)
    requires |slots| == Pow2(bits) && tail <= head
    ensures |w| == head - tail
  {
    seq(head - tail, i requires 0 <= i < head - tail => slots[Index(tail + i, bits)])
  }

  lemma WindowAppend<T>(slots: seq<T>, bits: nat, tail: nat, head: nat, item: T)
    requires |slots| == Pow2(bits) && tail <= head < tail + Pow2(bits)
    ensures Window(slots[Index(head, bits) := item], bits, tail, head + 1) == Window(slots, bits, tail, head) + [item]
  {
    var slots' := slots[Index(head, bits) := item];
    var w', w := Window(slots', bits, tail, head + 1), Window(slots, bits, tail, head) + [item];
    forall i | 0 <= i < |w|
      ensures w'[i] == w[i]
    {
      if i < head - tail { DistinctSlots(tail + i, head, bits); }
    }
  }

  lemma WindowDropFront<T>(slots: seq<T>, bits: nat, tail: nat, head: nat)
    requires |slots| == Pow2(bits) && tail < head
    ensures Window(slots, bits, tail, head)[1..] == Window(slots, bits, tail + 1, head)
    ensures Window(slots, bits, tail, head)[0] == slots[Index(tail, bits)]
  {
    forall i | 0 <= i < head - tail - 1
      ensures Window(slots, bits, tail, head)[1..][i] == Window(slots, bits, tail + 1, head)[i]
    {
      assert tail + 1 + i == tail + (i + 1);
    }
  }

  // ---------------------------------------------------------------------------------------------
  // The queue
  // ---------------------------------------------------------------------------------------------

  class IsolatedConsumerQueue<T(0)> {
    const bits: nat
    const buffer: array<T>
    var producerCursor: nat
    var cachedConsumerCursor: nat
    var consumerCursor: nat
    var cachedProducerCursor: nat
    var totalEnqueued: nat
    var totalDropped: nat
    var totalEvicted: nat
    var totalConsumed: nat
    var saturationEvents: nat

    /** Cursors in order, caches never ahead, and every counter accounted for. */
    ghost predicate Valid()
      reads this
    {
      && buffer.Length == Pow2(bits)
      && consumerCursor <= producerCursor <= consumerCursor + Pow2(bits)
      && cachedConsumerCursor <= consumerCursor
      && cachedProducerCursor <= producerCursor
      && producerCursor == totalEnqueued + totalEvicted
      && consumerCursor == totalConsumed + totalEvicted
      && saturationEvents == totalDropped + totalEvicted
    }

    ghost function Contents(): (c: seq<T>)
      reads this, buffer
      requires Valid()
      ensures |c| == totalEnqueued - totalConsumed
    {
      Window(buffer[..], bits, consumerCursor, producerCursor)
    }

    constructor (bits: nat)
      ensures Valid() && fresh(buffer) && this.bits == bits && Contents() == []
      ensures totalEnqueued == totalDropped == totalEvicted == totalConsumed == saturationEvents == 0
    {
      this.bits := bits;
      buffer := new T[Pow2(bits)];
      producerCursor, cachedConsumerCursor, consumerCursor, cachedProducerCursor := 0, 0, 0, 0;
      totalEnqueued, totalDropped, totalEvicted, totalConsumed, saturationEvents := 0, 0, 0, 0, 0;
    }

    method WriteSlot(head: nat, item: T)
      requires Valid() && head == producerCursor < consumerCursor + Pow2(bits)
      modifies buffer
      ensures Window(buffer[..], bits, consumerCursor, head + 1) == old(Contents()) + [item]
    {
      var slot := Index(head, bits);
      WindowAppend(buffer[..], bits, consumerCursor, head, item);
      buffer[slot] := item;
      assert buffer[..] == old(buffer[..])[slot := item];
    }

    method PushWithPolicy(item: T, policy: DropPolicy) returns (r: PushResult)
      requires Valid()
      modifies this, buffer
      ensures Valid() && (Contents(), r) == Offer(old(Contents()), Pow2(bits), item, policy)
      ensures totalConsumed == old(totalConsumed)
      ensures totalEnqueued == old(totalEnqueued) + if r == Enqueued then 1 else 0
      ensures totalDropped == old(totalDropped) + if r == DroppedNewest then 1 else 0
      ensures totalEvicted == old(totalEvicted) + if r == EvictedOldest then 1 else 0
    {
      var currentHead := producerCursor;
      if currentHead < cachedConsumerCursor + Pow2(bits) {
        WriteSlot(currentHead, item);
        producerCursor := currentHead + 1;
        totalEnqueued := totalEnqueued + 1;
        return Enqueued;
      }
      var actualTail := consumerCursor;
      cachedConsumerCursor := actualTail;
      if currentHead < actualTail + Pow2(bits) {
        WriteSlot(currentHead, item);
        producerCursor := currentHead + 1;
        totalEnqueued := totalEnqueued + 1;
        return Enqueued;
      }
      saturationEvents := saturationEvents + 1;
      match policy {
        case DropNewest =>
          totalDropped := totalDropped + 1;
          return DroppedNewest;
        case DropOldest =>
          EvictAndWrite(currentHead, actualTail + 1, item);
          return EvictedOldest;
      }
    }

    /** The eviction path: move the consumer's cursor, then reuse the slot it gave up. */
    method EvictAndWrite(currentHead: nat, newTail: nat, item: T)
      requires buffer.Length == Pow2(bits) && currentHead == producerCursor == consumerCursor + Pow2(bits)
      requires newTail == consumerCursor + 1
      requires cachedProducerCursor <= producerCursor && producerCursor == totalEnqueued + totalEvicted
      requires consumerCursor == totalConsumed + totalEvicted && saturationEvents == totalDropped + totalEvicted + 1
      modifies this`consumerCursor, this`cachedConsumerCursor, this`producerCursor, this`totalEvicted, buffer
      ensures Valid() && totalEvicted == old(totalEvicted) + 1
      ensures Contents() == Window(old(buffer[..]), bits, old(consumerCursor), old(producerCursor))[1..] + [item]
    {
      consumerCursor := newTail;
      cachedConsumerCursor := newTail;
      WindowDropFront(buffer[..], bits, newTail - 1, currentHead);
      WindowAppend(buffer[..], bits, newTail, currentHead, item);
      var slot := Index(currentHead, bits);
      buffer[slot] := item;
      assert buffer[..] == old(buffer[..])[slot := item];
      producerCursor := currentHead + 1;
      totalEvicted := totalEvicted + 1;
    }

    method TryPop() returns (r: Option<T>)
      requires Valid()
      modifies this
      ensures Valid() && (Contents(), r) == Take(old(Contents()))
      ensures totalConsumed == old(totalConsumed) + if r.Some? then 1 else 0
      ensures totalEnqueued == old(totalEnqueued) && totalDropped == old(totalDropped) && totalEvicted == old(totalEvicted)
    {
      var currentTail := consumerCursor;
      if currentTail >= cachedProducerCursor {
        var actualHead := producerCursor;
        cachedProducerCursor := actualHead;
        if currentTail >= actualHead {
          return None;
        }
      }
      WindowDropFront(buffer[..], bits, currentTail, producerCursor);
      var item := buffer[Index(currentTail, bits)];
      consumerCursor := currentTail + 1;
      totalConsumed := totalConsumed + 1;
      return Some(item);
    }

    method Len() returns (n: nat)
      requires Valid()
      ensures n == |Contents()| == totalEnqueued - totalConsumed
    {
      n := producerCursor - consumerCursor;
    }

    method IsEmpty() returns (b: bool)
      requires Valid()
      ensures b <==> Contents() == []
    {
      b := consumerCursor >= producerCursor;
    }
  }

  // ---------------------------------------------------------------------------------------------
  // Whole runs
  // ---------------------------------------------------------------------------------------------

  datatype Op<T> = Push(item: T, policy: DropPolicy) | Pop

  /** Contents, and what happened to every offered item: dropped on arrival, or departed (evicted or
      consumed) in order. */
  datatype History<T> = History(contents: seq<T>, accepted: seq<T>, departed: seq<(T, bool)>, dropped: seq<T>)

  function Apply<T>(h: History<T>, capacity: nat, op: Op<T>): History<T> {
    match op
    case Push(item, policy) =>
      var (contents, result) := Offer(h.contents, capacity, item, policy);
      (match result
       case Enqueued => h.(contents := contents, accepted := h.accepted + [item])
       case DroppedNewest => h.(dropped := h.dropped + [item])
       case EvictedOldest =>
         h.(contents := contents, accepted := h.accepted + [item],
            departed := h.departed + if h.contents == [] then [] else [(h.contents[0], true)]))
    case Pop =>
      var (contents, taken) := Take(h.contents);
      if taken.None? then h
      else h.(contents := contents, departed := h.departed + [(taken.value, false)])
  }

  function Run<T>(h: History<T>, capacity: nat, ops: seq<Op<T>>): History<T>
    decreases |ops|
  {
    if ops == [] then h else Run(Apply(h, capacity, ops[0]), capacity, ops[1..])
  }

  function Firsts<T>(s: seq<(T, bool)>): (r: seq<T>)
    ensures |r| == |s|
  {
    seq(|s|, i requires 0 <= i < |s| => s[i].0)
  }

  /** Departed items followed by the contents are the accepted items, in order. */
  ghost predicate Conserved<T>(h: History<T>, capacity: nat) {
    |h.contents| <= capacity && Firsts(h.departed) + h.contents == h.accepted
  }

  lemma ApplyConserves<T>(h: History<T>, capacity: nat, op: Op<T>)
    requires capacity > 0 && Conserved(h, capacity)
    ensures Conserved(Apply(h, capacity, op), capacity)
  {
    var r := Apply(h, capacity, op);
    if r.departed != h.departed && h.contents != [] {
      assert h.contents == [h.contents[0]] + h.contents[1..];
      assert Firsts(r.departed) == Firsts(h.departed) + [h.contents[0]];
    }
  }

  /** Any mix of pops and both policies: never over capacity, and every accepted item leaves exactly
      once and in order, whether consumed or evicted; only `DropNewest` refuses items. */
  lemma {:induction false} RunConserves<T>(h: History<T>, capacity: nat, ops: seq<Op<T>>)
    requires capacity > 0 && Conserved(h, capacity)
    ensures Conserved(Run(h, capacity, ops), capacity)
    ensures (forall i :: 0 <= i < |ops| && ops[i].Push? ==> ops[i].policy == DropOldest)
      ==> Run(h, capacity, ops).dropped == h.dropped
    decreases |ops|
  {
    if ops != [] {
      ApplyConserves(h, capacity, ops[0]);
      RunConserves(Apply(h, capacity, ops[0]), capacity, ops[1..]);
    }
  }

  /** With `DropOldest` and no consumer the queue holds the newest items offered, as many as fit. */
  lemma {:induction false} LaggardSeesNewest<T>(h: History<T>, capacity: nat, ops: seq<Op<T>>)
    requires capacity > 0 && Conserved(h, capacity)
    requires forall i :: 0 <= i < |ops| ==> ops[i].Push? && ops[i].policy == DropOldest
    ensures var r := Run(h, capacity, ops);
            && |r.accepted| == |h.accepted| + |ops|
            && |r.contents| == (if |h.contents| + |ops| < capacity then |h.contents| + |ops| else capacity)
            && r.contents == r.accepted[|r.accepted| - |r.contents|..]
    decreases |ops|
  {
    RunConserves(h, capacity, ops);
    if ops == [] {
      assert h.accepted[|h.accepted| - |h.contents|..] == h.contents;
    } else {
      ApplyConserves(h, capacity, ops[0]);
      LaggardSeesNewest(Apply(h, capacity, ops[0]), capacity, ops[1..]);
    }
  }
}
