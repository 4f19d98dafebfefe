/** The single-writer multi-reader sequence ring. The writer holds an exclusive reference while it
    publishes, so calls are taken whole. */
module ShmRing {
  import opened Bits
  import opened RingIndex
  import opened MarketData

  const KIND_BBO: nat := 1
  const KIND_TRADE: nat := 2

  datatype MessageSlot = MessageSlot(
    sequence: nat, kind: nat, flags: nat, venueId: nat, marketId: nat, telemetry: Telemetry, price: int, qty: nat)

  datatype ReadStatus = Ok | Empty | Overrun(missedMessages: nat)

  const EmptySlot := MessageSlot(0, KIND_BBO, 0, 0, 0, Telemetry(0, 0, 0, 0), 0, 0)

  function BboSlot(bbo: Bbo, sequence: nat): MessageSlot {
    MessageSlot(sequence, KIND_BBO, bbo.flags % 256, bbo.venue, bbo.marketId, bbo.telemetry, bbo.bidPrice, bbo.bidQty)
  }

  function TradeSlot(trade: Trade, sequence: nat): MessageSlot {
    MessageSlot(sequence, KIND_TRADE, if trade.isLiquidation then 1 else 0, trade.venue, trade.marketId,
                trade.telemetry, trade.price, trade.size)
  }

  /** The slot tells which message it is and repeats the bid side, times and ids of the quote. */
  predicate TellsBbo(slot: MessageSlot, bbo: Bbo) {
    && slot.kind == 1 && slot.venueId == bbo.venue && slot.marketId == bbo.marketId
    && slot.telemetry == bbo.telemetry && slot.price == bbo.bidPrice && slot.qty == bbo.bidQty
    && slot.flags == bbo.flags % 256
  }

  predicate TellsTrade(slot: MessageSlot, trade: Trade) {
    && slot.kind == 2 && slot.venueId == trade.venue && slot.marketId == trade.marketId
    && slot.telemetry == trade.telemetry && slot.price == trade.price && slot.qty == trade.size
    && (slot.flags == 1 <==> trade.isLiquidation) && slot.flags <= 1
  }

  /** What one read does to a reader's cursor, from the number of published messages alone. */
  function ReadStep(head: nat, capacity: nat, cursor: nat): (nat, ReadStatus) {
    if cursor >= head then (cursor, Empty)
    else if head > cursor + capacity then (head - capacity, Overrun(head - (cursor + capacity)))
    else (cursor + 1, Ok)
  }

  class ElasticShmRing {
    const bits: nat
    const slots: array<MessageSlot>
    var headSequence: nat
    var writerHeartbeatNs: nat
    /** Every message published so far, the k-th at index k - 1. */
    ghost var published: seq<MessageSlot>

    /** The newest `capacity` messages sit in their slots under their own sequence numbers. */
    ghost predicate Valid()
      reads this, slots
    {
      && slots.Length == Pow2(bits) && |published| == headSequence
      && (forall k :: 0 <= k < headSequence ==> published[k].sequence == k + 1)
      && (forall k :: 0 < k <= headSequence < k + Pow2(bits) ==> slots[Index(k, bits)] == published[k - 1])
    }

    constructor (bits: nat)
      ensures Valid() && fresh(slots) && this.bits == bits && published == []
    {
      this.bits := bits;
      slots := new MessageSlot[Pow2(bits)](_ => EmptySlot);
      headSequence, writerHeartbeatNs := 0, 0;
      published := [];
    }

    /** Fill the next slot field by field, the sequence number last, then advance the head. */
    method Store(slot: MessageSlot, nowNs: nat)
      requires Valid() && slot.sequence == headSequence + 1
      modifies this, slots
      ensures Valid() && published == old(published) + [slot] && headSequence == old(headSequence) + 1
      ensures writerHeartbeatNs == nowNs
    {
      var nextSeq := headSequence + 1;
      var slotIdx := Index(nextSeq, bits);
      slots[slotIdx] := slot;
      writerHeartbeatNs := nowNs;
      headSequence := nextSeq;
      published := published + [slot];
      forall k | 0 < k <= nextSeq < k + Pow2(bits)
        ensures slots[Index(k, bits)] == published[k - 1]
      {
        if k < nextSeq { DistinctSlots(k, nextSeq, bits); }
      }
    }

    method PublishBbo(bbo: Bbo, nowNs: nat) returns (sequence: nat)
      requires Valid()
      modifies this, slots
      ensures Valid() && sequence == headSequence == old(headSequence) + 1 && writerHeartbeatNs == nowNs
      ensures |published| == sequence && published[..old(headSequence)] == old(published)
      ensures published[old(headSequence)].sequence == sequence && TellsBbo(published[old(headSequence)], bbo)
    {
      sequence := headSequence + 1;
      Store(BboSlot(bbo, sequence), nowNs);
    }

    method PublishTrade(trade: Trade, nowNs: nat) returns (sequence: nat)
      requires Valid()
      modifies this, slots
      ensures Valid() && sequence == headSequence == old(headSequence) + 1 && writerHeartbeatNs == nowNs
      ensures |published| == sequence && published[..old(headSequence)] == old(published)
      ensures published[old(headSequence)].sequence == sequence && TellsTrade(published[old(headSequence)], trade)
    {
      sequence := headSequence + 1;
      Store(TradeSlot(trade, sequence), nowNs);
    }

    /** The copied slot always carries the sequence number the reader expects, so a read is Ok, Empty
        or an overrun exactly as the cursors say, and an Ok read is the message at the cursor. */
    method TryRead(readerCursor: nat, out: MessageSlot) returns (cursor: nat, copy: MessageSlot, status: ReadStatus)
      requires Valid()
      ensures (cursor, status) == ReadStep(headSequence, Pow2(bits), readerCursor)
      ensures if status == Ok then readerCursor < headSequence && copy == published[readerCursor] else copy == out
    {
      cursor, copy := readerCursor, out;
      var head: nat := headSequence;
      if readerCursor >= head {
        return cursor, copy, Empty;
      }
      if head > readerCursor + Pow2(bits) {
        var missed := head - (readerCursor + Pow2(bits));
        cursor := head - Pow2(bits);
        return cursor, copy, Overrun(missed);
      }
      var nextCursor := readerCursor + 1;
      copy := slots[Index(nextCursor, bits)];
      if copy.sequence == nextCursor {
        cursor := nextCursor;
        status := Ok;
      } else {
        cursor := head;
        status := Empty;
      }
    }
  }

  // ---------------------------------------------------------------------------------------------
  // A reader's whole life
  // ---------------------------------------------------------------------------------------------

  datatype Event = Publish | Read

  /** Messages read (by number, from 1) and reported missed since the reader started. */
  datatype Reader = Reader(head: nat, cursor: nat, received: seq<nat>, missed: nat)

  function Advance(r: Reader, capacity: nat, event: Event): Reader {
    match event
    case Publish => r.(head := r.head + 1)
    case Read =>
      var (cursor, status) := ReadStep(r.head, capacity, r.cursor);
      match status
      case Ok => r.(cursor := cursor, received := r.received + [cursor])
      case Empty => r
      case Overrun(m) => r.(cursor := cursor, missed := r.missed + m)
  }

  function Follow(r: Reader, capacity: nat, events: seq<Event>): Reader
    decreases |events|
  {
    if events == [] then r else Follow(Advance(r, capacity, events[0]), capacity, events[1..])
  }

  /** Reads are distinct published messages in order, and the cursor accounts for every message. */
  ghost predicate Accounted(r: Reader, start: nat) {
    && start <= r.cursor && r.cursor == start + |r.received| + r.missed
    && (forall i :: 0 <= i < |r.received| ==> start < r.received[i] <= r.cursor && r.received[i] <= r.head)
    && (forall i, j :: 0 <= i < j < |r.received| ==> r.received[i] < r.received[j])
  }

  lemma AdvanceAccounts(r: Reader, capacity: nat, event: Event, start: nat)
    requires Accounted(r, start)
    ensures Accounted(Advance(r, capacity, event), start)
  {
  }

  /** Whatever the writer does in between: the cursor's advance is the number of Ok reads plus the sum
      of reported misses, and Ok reads are published messages in publication order. */
  lemma {:induction false} EveryMessageReadOrReported(r: Reader, capacity: nat, events: seq<Event>, start: nat)
    requires Accounted(r, start)
    ensures Accounted(Follow(r, capacity, events), start)
    decreases |events|
  {
    if events != [] {
      AdvanceAccounts(r, capacity, events[0], start);
      EveryMessageReadOrReported(Advance(r, capacity, events[0]), capacity, events[1..], start);
    }
  }

  function ReadsOnly(n: nat): seq<Event> { seq(n, _ => Read) }

  /** A reader left alone catches up: within capacity + 1 reads from any lag its cursor is the head. */
  lemma {:induction false} ReaderCatchesUp(r: Reader, capacity: nat, n: nat)
    requires r.cursor <= r.head
    requires n >= if r.head > r.cursor + capacity then capacity + 1 else r.head - r.cursor
    ensures Follow(r, capacity, ReadsOnly(n)).cursor == r.head
    decreases n
  {
    if n > 0 {
      assert ReadsOnly(n)[1..] == ReadsOnly(n - 1);
      ReaderCatchesUp(Advance(r, capacity, Read), capacity, n - 1);
    }
  }
}
