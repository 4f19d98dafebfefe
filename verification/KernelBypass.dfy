/** The kernel-bypass receive bridge: a stack of free DMA buffers, a window of posted buffer ids, and
    the burst poll that hands frames out and recycles their buffers. */
module KernelBypass {
  import opened Bits
  import opened RingIndex
  import opened Sequences
  import opened Wrappers

  const MAX_FRAME_SIZE: nat := 2048
  const DMA_BASE: nat := 0x1000_0000
  const FLAG_UDP: nat := 1

  type Byte = x: int | 0 <= x < 256

  type Frame = f: seq<Byte> | |f| == MAX_FRAME_SIZE
    witness seq(MAX_FRAME_SIZE, _ => 0)

  /** Only `Fill` writes a descriptor's length, and never more than a frame. */
  type FrameLength = n: nat | n <= MAX_FRAME_SIZE

  datatype PacketDescriptor = PacketDescriptor(
    dmaAddress: nat, hwTimestampNs: nat, length: FrameLength, bufferId: nat, flags: nat)

  datatype Packet = Packet(payload: seq<Byte>, hwTimestampNs: nat)

  /** What the wire delivers of a payload: at most one frame. */
  function Truncated(payload: seq<Byte>): (t: seq<Byte>)
    ensures t <= payload && |t| == (if |payload| <= 2048 then |payload| else 2048)
  {
    payload[..Min(|payload|, MAX_FRAME_SIZE)]
  }

  // ---------------------------------------------------------------------------------------------
  // What the bridge means: a bounded FIFO whose capacity is the number of buffers in circulation
  // ---------------------------------------------------------------------------------------------

  datatype Ring = Ring(backlog: seq<Packet>, capacity: nat)

  function Inject(r: Ring, payload: seq<Byte>, hwTimestampNs: nat): (Ring, bool) {
    if |r.backlog| >= r.capacity then (r, false)
    else (r.(backlog := r.backlog + [Packet(Truncated(payload), hwTimestampNs)]), true)
  }

  /** A poll that delivers something drops every posted buffer that was not yet filled. */
  function Poll(r: Ring, maxPackets: nat): (Ring, seq<Packet>) {
    var n := Min(maxPackets, |r.backlog|);
    if n == 0 then (r, []) else (Ring(r.backlog[n..], |r.backlog|), r.backlog[..n])
  }

  // ---------------------------------------------------------------------------------------------
  // Who owns which buffer
  // ---------------------------------------------------------------------------------------------

  ghost predicate InRange(ids: seq<nat>, n: nat) {
    forall i :: 0 <= i < |ids| ==> ids[i] < n
  }

  ghost predicate Distinct(ids: seq<nat>, n: nat) {
    InRange(ids, n) && (forall i, j :: 0 <= i < j < |ids| ==> ids[i] != ids[j])
  }

  /** No id is held twice, on the stack, in the window, or across both. */
  ghost predicate Owned(free: seq<nat>, posted: seq<nat>, n: nat) {
    && |free| + |posted| <= n && Distinct(free, n) && Distinct(posted, n)
    && forall i, j :: 0 <= i < |free| && 0 <= j < |posted| ==> free[i] != posted[j]
  }

  lemma Post(free: seq<nat>, posted: seq<nat>, n: nat)
    requires Owned(free, posted, n) && free != []
    ensures Owned(free[..|free| - 1], posted + [free[|free| - 1]], n)
  {
  }

  /** One pass of the refill loop. */
  lemma PostInto(free: seq<nat>, left: seq<nat>, id: nat, window: seq<nat>, t: nat, n: nat)
    requires t < |window| && free == left + [id] && Owned(free, window[..t], n)
    ensures Owned(left, window[t := id][..t + 1], n)
  {
    Post(free, window[..t], n);
    assert free[..|free| - 1] == left;
    assert window[t := id][..t + 1] == window[..t] + [id];
  }

  lemma Recycle(free: seq<nat>, posted: seq<nat>, n: nat)
    requires Owned(free, posted, n) && posted != []
    ensures Owned(free + [posted[0]], posted[1..], n)
  {
  }

  lemma Forget(free: seq<nat>, posted: seq<nat>, n: nat, keep: nat)
    requires Owned(free, posted, n) && keep <= |posted|
    ensures Owned(free, posted[..keep], n)
  {
  }

  function PacketOf(frame: Frame, d: PacketDescriptor): Packet {
    Packet(frame[..d.length], d.hwTimestampNs)
  }

  /** The frames behind a window of buffer ids. */
  ghost function Packets(storage: seq<Frame>, descriptors: seq<PacketDescriptor>, ids: seq<nat>): (r: seq<Packet>)
    requires |storage| == |descriptors| && InRange(ids, |storage|)
    ensures |r| == |ids|
  {
    seq(|ids|, i requires 0 <= i < |ids| => PacketOf(storage[ids[i]], descriptors[ids[i]]))
  }

  /** Filling one buffer adds its frame to the window and disturbs no other. */
  lemma FillAppends(storage: seq<Frame>, descriptors: seq<PacketDescriptor>, ids: seq<nat>,
                    id: nat, f: Frame, d: PacketDescriptor)
    requires |storage| == |descriptors| && InRange(ids, |storage|) && id < |storage| && id !in ids
    ensures InRange(ids + [id], |storage|)
    ensures Packets(storage[id := f], descriptors[id := d], ids + [id])
         == Packets(storage, descriptors, ids) + [PacketOf(f, d)]
  {
  }

  lemma PacketsFrom(storage: seq<Frame>, descriptors: seq<PacketDescriptor>, ids: seq<nat>, from: nat)
    requires |storage| == |descriptors| && InRange(ids, |storage|) && from <= |ids|
    ensures InRange(ids[from..], |storage|)
    ensures Packets(storage, descriptors, ids[from..]) == Packets(storage, descriptors, ids)[from..]
  {
  }

  lemma SmallIndex(k: nat, bits: nat)
    requires k < Pow2(bits)
    ensures Index(k, bits) == k
  {
    DivUnique(k, Pow2(bits), 0, k);
  }

  // ---------------------------------------------------------------------------------------------
  // The buffer pool
  // ---------------------------------------------------------------------------------------------

  class DmaBufferPool {
    const bits: nat
    const storage: array<Frame>
    const descriptors: array<PacketDescriptor>
    const availableIndices: array<nat>
    var freeCount: nat

    ghost predicate Valid()
      reads this
    {
      storage.Length == descriptors.Length == availableIndices.Length == Pow2(bits) && freeCount <= Pow2(bits)
    }

    ghost function Free(): seq<nat>
      reads this, availableIndices
      requires Valid()
    {
      availableIndices[..freeCount]
    }

    constructor (bits: nat)
      ensures Valid() && fresh(storage) && fresh(descriptors) && fresh(availableIndices) && this.bits == bits
      ensures freeCount == Pow2(bits) && forall i :: 0 <= i < freeCount ==> availableIndices[i] == i
    {
      this.bits := bits;
      storage := new Frame[Pow2(bits)](_ => seq(MAX_FRAME_SIZE, _ => 0));
      descriptors := new PacketDescriptor[Pow2(bits)](i requires 0 <= i =>
        PacketDescriptor(DMA_BASE + i * MAX_FRAME_SIZE, 0, 0, i, 0));
      availableIndices := new nat[Pow2(bits)](i requires 0 <= i => i);
      freeCount := Pow2(bits);
    }

    method AllocateDescriptor() returns (id: Option<nat>)
      requires Valid()
      modifies this`freeCount
      ensures Valid()
      ensures old(Free()) == [] ==> id == None && freeCount == old(freeCount)
      ensures old(Free()) != [] ==> id.Some? && old(Free()) == Free() + [id.value]
    {
      if freeCount == 0 {
        return None;
      }
      freeCount := freeCount - 1;
      id := Some(availableIndices[freeCount]);
    }

    /** A release to a full stack is silently ignored. */
    method ReleaseDescriptor(bufferId: nat)
      requires Valid()
      modifies this`freeCount, availableIndices
      ensures Valid()
      ensures Free() == if old(freeCount) < Pow2(bits) then old(Free()) + [bufferId] else old(Free())
    {
      if freeCount < Pow2(bits) {
        availableIndices[freeCount] := bufferId;
        freeCount := freeCount + 1;
      }
    }

    function GetBufferSlice(bufferId: nat, length: nat): seq<Byte>
      reads storage
      requires storage.Length == Pow2(bits)
    {
      storage[Index(bufferId, bits)][..Min(length, MAX_FRAME_SIZE)]
    }

    /** Copy the part of the payload that fits, leaving the rest of the buffer as it was. */
    method Fill(bufferId: nat, payload: seq<Byte>, hwTimestampNs: nat) returns (ghost f: Frame, ghost d: PacketDescriptor)
      requires Valid() && bufferId < Pow2(bits)
      modifies storage, descriptors
      ensures storage[..] == old(storage[..])[bufferId := f] && descriptors[..] == old(descriptors[..])[bufferId := d]
      ensures PacketOf(f, d) == Packet(Truncated(payload), hwTimestampNs)
    {
      SmallIndex(bufferId, bits);
      var idx := Index(bufferId, bits);
      var len := Min(|payload|, MAX_FRAME_SIZE);
      var frame: Frame := payload[..len] + storage[idx][len..];
      var desc := descriptors[idx].(length := len, hwTimestampNs := hwTimestampNs, flags := FLAG_UDP);
      storage[idx] := frame;
      descriptors[idx] := desc;
      assert frame[..len] == payload[..len];
      f, d := frame, desc;
    }
  }

  // ---------------------------------------------------------------------------------------------
  // The bridge
  // ---------------------------------------------------------------------------------------------

  datatype Metrics = Metrics(
    packetsReceived: nat, bytesReceived: nat, pollCycles: nat, emptyPolls: nat, ringRefills: nat, dmaErrors: nat)

  class KernelBypassBridge {
    const bits: nat
    const pool: DmaBufferPool
    const posted: array<nat>
    var head: nat
    var tail: nat
    var metrics: Metrics

    /** The structure that holds at every point, refilled or not. */
    ghost predicate Shape()
      reads this, pool
    {
      && pool.Valid() && pool.bits == bits && posted.Length == Pow2(bits) && posted != pool.availableIndices
      && head <= tail <= Pow2(bits)
    }

    /** Between calls every buffer in circulation is posted, and none is posted twice. */
    ghost predicate Valid()
      reads this, pool, posted
    {
      Shape() && pool.freeCount == 0 && Distinct(posted[..tail], Pow2(bits))
    }

    ghost function View(): Ring
      reads this, pool, posted, pool.storage, pool.descriptors
      requires Valid()
    {
      assert forall i :: 0 <= i < head ==> posted[..head][i] == posted[..tail][i];
      Ring(Packets(pool.storage[..], pool.descriptors[..], posted[..head]), tail)
    }

    constructor (bits: nat)
      ensures Valid() && fresh(pool) && fresh(posted) && fresh(pool.storage) && fresh(pool.descriptors)
      ensures fresh(pool.availableIndices) && this.bits == bits && View() == Ring([], Pow2(bits))
    {
      this.bits := bits;
      var p := new DmaBufferPool(bits);
      pool := p;
      posted := new nat[Pow2(bits)];
      head, tail := 0, 0;
      metrics := Metrics(0, 0, 0, 0, 0, 0);
      new;
      var refilled := RefillRxRing();
    }

    /** Post every free buffer behind the window. */
    method RefillRxRing() returns (refilled: nat)
      requires Shape() && Owned(pool.Free(), posted[..tail], Pow2(bits))
      modifies this`tail, this`metrics, pool`freeCount, posted
      ensures Valid() && refilled == old(pool.freeCount) && tail == old(tail) + refilled
      ensures posted[..old(tail)] == old(posted[..tail])
      ensures metrics == old(metrics).(ringRefills := old(metrics).ringRefills + refilled)
    {
      refilled := 0;
      var t := tail;
      ghost var n := Pow2(bits);
      while t < head + Pow2(bits)
        invariant pool.Valid() && tail == old(tail) <= t && t == tail + refilled
        invariant refilled + pool.freeCount == old(pool.freeCount) && t <= n
        invariant Owned(pool.Free(), posted[..t], n)
        invariant t < n || pool.freeCount == 0
        invariant posted[..tail] == old(posted[..tail]) && metrics == old(metrics)
        decreases head + n - t
      {
        ghost var before, window := pool.Free(), posted[..];
        var id := pool.AllocateDescriptor();
        if id.None? { break; }
        SmallIndex(t, bits);
        PostInto(before, pool.Free(), id.value, window, t, n);
        posted[Index(t, bits)] := id.value;
        assert posted[..] == window[t := id.value];
        assert posted[..t + 1] == window[t := id.value][..t + 1];
        t := t + 1;
        refilled := refilled + 1;
      }
      tail := t;
      if refilled > 0 {
        metrics := metrics.(ringRefills := metrics.ringRefills + refilled);
      }
    }

    /** A frame arriving from the wire takes the next posted buffer, or is dropped when there is none. */
    method InjectPacket(payload: seq<Byte>, hwTimestampNs: nat) returns (r: Result<(), string>)
      requires Valid()
      modifies this`head, this`metrics, pool.storage, pool.descriptors
      ensures Valid() && (View(), r.Ok?) == Inject(old(View()), payload, hwTimestampNs)
      ensures metrics == old(metrics).(dmaErrors := old(metrics).dmaErrors + if r.Ok? then 0 else 1)
    {
      if head >= tail {
        metrics := metrics.(dmaErrors := metrics.dmaErrors + 1);
        return Err("RX ring exhausted - packet dropped at PHY layer");
      }
      SmallIndex(head, bits);
      var id := posted[Index(head, bits)];
      NextIsFresh(posted[..tail], head, Pow2(bits));
      assert posted[..tail][..head] == posted[..head];
      ghost var storage, descriptors := pool.storage[..], pool.descriptors[..];
      ghost var f, d := pool.Fill(id, payload, hwTimestampNs);
      FillAppends(storage, descriptors, posted[..head], id, f, d);
      assert posted[..head + 1] == posted[..head] + [id];
      head := head + 1;
      r := Ok(());
    }

    /** Hand out up to `maxPackets` frames in arrival order, each with its own bytes and timestamp. */
    method PollRxBurst(maxPackets: nat) returns (count: nat, delivered: seq<Packet>)
      requires Valid()
      modifies this`head, this`tail, this`metrics, pool`freeCount, pool.availableIndices, posted
      ensures Valid() && (View(), delivered) == Poll(old(View()), maxPackets) && count == |delivered|
      ensures metrics.packetsReceived == old(metrics).packetsReceived + |delivered|
      ensures metrics.bytesReceived == old(metrics).bytesReceived + Bytes(delivered)
      ensures metrics.pollCycles == old(metrics).pollCycles + 1 && metrics.dmaErrors == old(metrics).dmaErrors
      ensures metrics.emptyPolls == old(metrics).emptyPolls + if delivered == [] then 1 else 0
    {
      metrics := metrics.(pollCycles := metrics.pollCycles + 1);
      var limit := Min(maxPackets, head);
      PacketsFrom(pool.storage[..], pool.descriptors[..], posted[..head], limit);
      assert posted[..head][limit..] == posted[limit..head];
      delivered := Drain(limit);
      count := limit;
      if count == 0 {
        metrics := metrics.(emptyPolls := metrics.emptyPolls + 1);
      } else {
        ShiftWindow(count);
        var refilled := RefillRxRing();
      }
    }

    /** Read one frame, count it, and return its buffer to the stack. */
    method DeliverOne(current: nat) returns (p: Packet)
      requires Shape() && current < head && Owned(pool.Free(), posted[current..tail], Pow2(bits))
      modifies this`metrics, pool`freeCount, pool.availableIndices
      ensures Shape() && Owned(pool.Free(), posted[current + 1..tail], Pow2(bits))
      ensures pool.freeCount == old(pool.freeCount) + 1
      ensures posted[current] < Pow2(bits)
      ensures p == PacketOf(pool.storage[posted[current]], pool.descriptors[posted[current]])
      ensures metrics == old(metrics).(packetsReceived := old(metrics).packetsReceived + 1,
                                       bytesReceived := old(metrics).bytesReceived + |p.payload|)
    {
      SmallIndex(current, bits);
      var id := posted[Index(current, bits)];
      assert id == posted[current..tail][0];
      SmallIndex(id, bits);
      var d := pool.descriptors[Index(id, bits)];
      p := Packet(pool.GetBufferSlice(id, d.length), d.hwTimestampNs);
      metrics := metrics.(packetsReceived := metrics.packetsReceived + 1, bytesReceived := metrics.bytesReceived + d.length);
      Recycle(pool.Free(), posted[current..tail], Pow2(bits));
      assert posted[current..tail][1..] == posted[current + 1..tail];
      pool.ReleaseDescriptor(id);
    }

    /** The delivery loop. */
    method Drain(limit: nat) returns (delivered: seq<Packet>)
      requires Valid() && limit <= head
      modifies this`metrics, pool`freeCount, pool.availableIndices
      ensures Shape() && Owned(pool.Free(), posted[limit..tail], Pow2(bits)) && pool.freeCount == limit
      ensures delivered == old(View()).backlog[..limit]
      ensures metrics == old(metrics).(packetsReceived := old(metrics).packetsReceived + limit,
                                       bytesReceived := old(metrics).bytesReceived + Bytes(delivered))
    {
      ghost var backlog := View().backlog;
      delivered := [];
      var current := 0;
      assert posted[0..tail] == posted[..tail];
      while current < limit
        invariant current <= limit && Shape() && pool.freeCount == current
        invariant Owned(pool.Free(), posted[current..tail], Pow2(bits))
        invariant delivered == backlog[..current]
        invariant metrics == old(metrics).(packetsReceived := old(metrics).packetsReceived + current,
                                           bytesReceived := old(metrics).bytesReceived + Bytes(delivered))
      {
        var p := DeliverOne(current);
        BytesSnoc(delivered, p);
        delivered := delivered + [p];
        current := current + 1;
      }
    }

    /** Move the frames not yet delivered to the front; posted buffers behind them are forgotten. */
    method ShiftWindow(current: nat)
      requires Shape() && 0 < current <= head && Owned(pool.Free(), posted[current..tail], Pow2(bits))
      modifies this`head, this`tail, posted
      ensures Shape() && Owned(pool.Free(), posted[..tail], Pow2(bits))
      ensures head == tail == old(head) - current && posted[..head] == old(posted[current..head])
    {
      var remaining := head - current;
      var i := 0;
      while i < remaining
        invariant i <= remaining
        invariant forall k :: 0 <= k < i ==> posted[k] == old(posted[current + k])
        invariant forall k :: i <= k < posted.Length ==> posted[k] == old(posted[k])
      {
        posted[i] := posted[current + i];
        i := i + 1;
      }
      Forget(pool.Free(), old(posted[current..tail]), Pow2(bits), remaining);
      assert posted[..remaining] == old(posted[current..tail])[..remaining];
      head, tail := remaining, remaining;
    }
  }

  lemma NextIsFresh(window: seq<nat>, head: nat, n: nat)
    requires Distinct(window, n) && head < |window|
    ensures InRange(window[..head], n) && window[head] < n && window[head] !in window[..head]
  {
  }

  function Bytes(packets: seq<Packet>): nat
    decreases |packets|
  {
    if packets == [] then 0 else Bytes(packets[..|packets| - 1]) + |packets[|packets| - 1].payload|
  }

  lemma BytesSnoc(packets: seq<Packet>, p: Packet)
    ensures Bytes(packets + [p]) == Bytes(packets) + |p.payload|
  {
    assert (packets + [p])[..|packets|] == packets;
  }

  // ---------------------------------------------------------------------------------------------
  // Whole runs
  // ---------------------------------------------------------------------------------------------

  datatype Op = Arrive(payload: seq<Byte>, hwTimestampNs: nat) | Burst(maxPackets: nat)

  /** Arrived frames that were accepted, frames delivered, and frames lost to an exhausted ring. */
  datatype History = History(ring: Ring, accepted: seq<Packet>, delivered: seq<Packet>, lost: seq<Packet>)

  function Apply(h: History, op: Op): History {
    match op
    case Arrive(payload, ts) =>
      var (ring, ok) := Inject(h.ring, payload, ts);
      var p := Packet(Truncated(payload), ts);
      if ok then h.(ring := ring, accepted := h.accepted + [p]) else h.(ring := ring, lost := h.lost + [p])
    case Burst(maxPackets) =>
      var (ring, out) := Poll(h.ring, maxPackets);
      h.(ring := ring, delivered := h.delivered + out)
  }

  function Run(h: History, ops: seq<Op>): History
    decreases |ops|
  {
    if ops == [] then h else Run(Apply(h, ops[0]), ops[1..])
  }

  ghost predicate Conserved(h: History) {
    |h.ring.backlog| <= h.ring.capacity && h.delivered + h.ring.backlog == h.accepted
  }

  lemma ApplyConserves(h: History, op: Op)
    requires Conserved(h)
    ensures Conserved(Apply(h, op)) && Apply(h, op).ring.capacity <= h.ring.capacity
    ensures h.ring.capacity > 0 ==> Apply(h, op).ring.capacity > 0
  {
    match op
    case Arrive(payload, ts) => Regroup(h.delivered, h.ring.backlog, [Packet(Truncated(payload), ts)]);
    case Burst(maxPackets) =>
      var n := Min(maxPackets, |h.ring.backlog|);
      Regroup(h.delivered, h.ring.backlog[..n], h.ring.backlog[n..]);
      assert h.ring.backlog == h.ring.backlog[..n] + h.ring.backlog[n..];
      if n == 0 { assert h.delivered + [] == h.delivered; }
  }

  /** Every accepted frame is delivered exactly once, in arrival order, with its bytes and timestamp. */
  lemma {:induction false} RunDeliversInOrder(h: History, ops: seq<Op>)
    requires Conserved(h)
    ensures Conserved(Run(h, ops)) && Run(h, ops).ring.capacity <= h.ring.capacity
    ensures h.delivered <= Run(h, ops).delivered <= Run(h, ops).accepted
    ensures h.ring.capacity > 0 ==> Run(h, ops).ring.capacity > 0
    decreases |ops|
  {
    if ops == [] {
    } else {
      ApplyConserves(h, ops[0]);
      RunDeliversInOrder(Apply(h, ops[0]), ops[1..]);
    }
  }

  /** How many frames were waiting at each poll of the run that delivered something. */
  function Backlogs(h: History, ops: seq<Op>): seq<nat>
    decreases |ops|
  {
    if ops == [] then []
    else
      var rest := Backlogs(Apply(h, ops[0]), ops[1..]);
      if ops[0].Burst? && ops[0].maxPackets > 0 && h.ring.backlog != [] then [|h.ring.backlog|] + rest else rest
  }

  function Least(bound: nat, s: seq<nat>): nat
    decreases |s|
  {
    if s == [] then bound else Least(Min(bound, s[0]), s[1..])
  }

  /** The buffers left in circulation are exactly the smallest backlog any delivering poll found:
      the ones posted but not yet filled at a poll are never posted again. */
  lemma {:induction false} CirculationIsLeastBacklog(h: History, ops: seq<Op>)
    requires Conserved(h)
    ensures Run(h, ops).ring.capacity == Least(h.ring.capacity, Backlogs(h, ops))
    decreases |ops|
  {
    if ops == [] {
    } else {
      ApplyConserves(h, ops[0]);
      CirculationIsLeastBacklog(Apply(h, ops[0]), ops[1..]);
    }
  }

  lemma {:induction false} LeastIsBound(bound: nat, s: seq<nat>)
    ensures Least(bound, s) <= bound
    ensures Least(bound, s) == bound <==> forall i :: 0 <= i < |s| ==> s[i] >= bound
    decreases |s|
  {
    if s == [] {
    } else {
      LeastIsBound(Min(bound, s[0]), s[1..]);
      assert forall i :: 0 < i < |s| ==> s[i] == s[1..][i - 1];
    }
  }

  /** All buffers stay in circulation if and only if every delivering poll finds the ring full. */
  lemma KeepsBuffersIffPolledFull(h: History, ops: seq<Op>)
    requires Conserved(h)
    ensures Run(h, ops).ring.capacity == h.ring.capacity
      <==> forall i :: 0 <= i < |Backlogs(h, ops)| ==> Backlogs(h, ops)[i] >= h.ring.capacity
  {
    CirculationIsLeastBacklog(h, ops);
    LeastIsBound(h.ring.capacity, Backlogs(h, ops));
  }

  /** One frame, then one poll: whatever the pool's size, a single buffer remains. */
  lemma OneFrameThenPoll(n: nat, payload: seq<Byte>, ts: nat, maxPackets: nat)
    requires n > 0 && maxPackets > 0
    ensures Run(History(Ring([], n), [], [], []), [Arrive(payload, ts), Burst(maxPackets)]).ring == Ring([], 1)
  {
    var h := History(Ring([], n), [], [], []);
    var ops := [Arrive(payload, ts), Burst(maxPackets)];
    assert ops[1..] == [Burst(maxPackets)];
    assert Run(h, ops) == Run(Apply(h, ops[0]), ops[1..]);
    assert ops[1..][1..] == [];
  }
}
