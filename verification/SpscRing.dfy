/** The lock-free single-producer single-consumer ring as a state machine: one producer and one
    consumer, interleaved at every cursor load, cached-cursor access, slot access and store.
    A slot access takes two steps, and a slot being written holds no value. */
module SpscRing {
  import opened Bits
  import opened RingIndex

  datatype Slot<T> = Torn | Item(value: T)

  /** Where `try_push` stands: after which of its steps, with the registers it holds. */
  datatype Producer<T> =
    | PIdle
    | HeadLoaded(item: T, head: nat)
    | MustReloadTail(item: T, head: nat)
    | TailReloaded(item: T, head: nat, actualTail: nat)
    | WriteReady(item: T, head: nat)
    | Writing(item: T, head: nat)
    | Written(item: T, head: nat)

  /** Where `try_pop` stands. */
  datatype Consumer<T> =
    | CIdle
    | TailLoaded(tail: nat)
    | MustReloadHead(tail: nat)
    | HeadReloaded(tail: nat, actualHead: nat)
    | ReadReady(tail: nat)
    | Reading(tail: nat)
    | Read(tail: nat, item: T)

  /** The shared words, both threads, and what has been pushed and popped so far. */
  datatype Ring<T> = Ring(
    bits: nat, head: nat, tail: nat, cachedTail: nat, cachedHead: nat, slots: seq<Slot<T>>,
    producer: Producer<T>, consumer: Consumer<T>, pushed: seq<T>, popped: seq<T>)
  {
    function N(): nat { Pow2(bits) }

    predicate Valid() { |slots| == N() }

    function At(cursor: nat): Slot<T>
      requires Valid()
    {
      slots[Index(cursor, bits)]
    }

    function Put(cursor: nat, slot: Slot<T>): (r: Ring<T>)
      requires Valid()
      ensures r.Valid()
    {
      this.(slots := slots[Index(cursor, bits) := slot])
    }

    /** The next atomic step of the producer; `item` is the argument of a call that starts here. */
    function ProducerStep(item: T): (r: Ring<T>)
      requires Valid()
      ensures r.Valid()
    {
      match producer
      case PIdle => this.(producer := HeadLoaded(item, head))
      case HeadLoaded(x, h) =>
        this.(producer := if h >= cachedTail + N() then MustReloadTail(x, h) else WriteReady(x, h))
      case MustReloadTail(x, h) => this.(producer := TailReloaded(x, h, tail))
      case TailReloaded(x, h, t) =>
        this.(cachedTail := t, producer := if h >= t + N() then PIdle else WriteReady(x, h))
      case WriteReady(x, h) => Put(h, Torn).(producer := Writing(x, h))
      case Writing(x, h) => Put(h, Item(x)).(producer := Written(x, h))
      case Written(x, h) => this.(head := h + 1, producer := PIdle, pushed := pushed + [x])
    }

    /** The next atomic step of the consumer. Reading a torn slot would get it stuck. */
    function ConsumerStep(): (r: Ring<T>)
      requires Valid()
      ensures r.Valid()
    {
      match consumer
      case CIdle => this.(consumer := TailLoaded(tail))
      case TailLoaded(t) => this.(consumer := if t >= cachedHead then MustReloadHead(t) else ReadReady(t))
      case MustReloadHead(t) => this.(consumer := HeadReloaded(t, head))
      case HeadReloaded(t, h) =>
        this.(cachedHead := h, consumer := if t >= h then CIdle else ReadReady(t))
      case ReadReady(t) => this.(consumer := Reading(t))
      case Reading(t) => if At(t).Item? then this.(consumer := Read(t, At(t).value)) else this
      case Read(t, x) => this.(tail := t + 1, consumer := CIdle, popped := popped + [x])
    }
  }

  datatype Move<T> = Produce(item: T) | Consume

  function Initial<T>(bits: nat, default: T): (r: Ring<T>)
    ensures r.Valid()
  {
    Ring(bits, 0, 0, 0, 0, seq(Pow2(bits), _ => Item(default)), PIdle, CIdle, [], [])
  }

  function Run<T>(s: Ring<T>, moves: seq<Move<T>>): (r: Ring<T>)
    requires s.Valid()
    ensures r.Valid()
    decreases |moves|
  {
    if moves == [] then s
    else Run(if moves[0].Produce? then s.ProducerStep(moves[0].item) else s.ConsumerStep(), moves[1..])
  }

  // ---------------------------------------------------------------------------------------------
  // The invariant
  // ---------------------------------------------------------------------------------------------

  ghost predicate Cursors<T>(s: Ring<T>) {
    && s.tail <= s.head <= s.tail + s.N()
    && s.cachedTail <= s.tail && s.cachedHead <= s.head
    && |s.pushed| == s.head && |s.popped| == s.tail
    && s.popped == s.pushed[..s.tail]
  }

  /** The published window holds exactly the items pushed at those cursors. */
  ghost predicate Window<T>(s: Ring<T>)
    requires s.Valid()
  {
    forall c :: s.tail <= c < s.head && c < |s.pushed| ==> s.At(c) == Item(s.pushed[c])
  }

  ghost predicate ProducerOk<T>(s: Ring<T>)
    requires s.Valid()
  {
    match s.producer
    case PIdle => true
    case HeadLoaded(_, h) => h == s.head
    case MustReloadTail(_, h) => h == s.head
    case TailReloaded(_, h, t) => h == s.head && t <= s.tail
    case WriteReady(_, h) => h == s.head && h < s.tail + s.N()
    case Writing(_, h) => h == s.head && h < s.tail + s.N() && s.At(h) == Torn
    case Written(x, h) => h == s.head && h < s.tail + s.N() && s.At(h) == Item(x)
  }

  ghost predicate ConsumerOk<T>(s: Ring<T>) {
    match s.consumer
    case CIdle => true
    case TailLoaded(t) => t == s.tail
    case MustReloadHead(t) => t == s.tail
    case HeadReloaded(t, h) => t == s.tail && h <= s.head
    case ReadReady(t) => t == s.tail && t < s.head
    case Reading(t) => t == s.tail && t < s.head
    case Read(t, x) => t == s.tail && t < s.head && t < |s.pushed| && x == s.pushed[t]
  }

  ghost predicate Inv<T>(s: Ring<T>) {
    s.Valid() && Cursors(s) && Window(s) && ProducerOk(s) && ConsumerOk(s)
  }

  lemma InitialInv<T>(bits: nat, default: T)
    ensures Inv(Initial(bits, default))
  {
  }

  /** Writing the slot one past the window leaves the window alone. */
  lemma PutOutsideWindow<T>(s: Ring<T>, slot: Slot<T>)
    requires s.Valid() && Cursors(s) && Window(s) && s.head < s.tail + s.N()
    ensures Window(s.Put(s.head, slot)) && s.Put(s.head, slot).At(s.head) == slot
  {
    var r := s.Put(s.head, slot);
    forall c | s.tail <= c < s.head
      ensures r.At(c) == s.At(c)
    {
      DistinctSlots(c, s.head, s.bits);
    }
  }

  lemma ProducerKeepsInv<T>(s: Ring<T>, item: T)
    requires Inv(s)
    ensures Inv(s.ProducerStep(item))
  {
    match s.producer {
      case WriteReady(_, _) => PutOutsideWindow(s, Torn);
      case Writing(x, _) => PutOutsideWindow(s, Item(x));
      case Written(x, h) => PublishKeepsInv(s, item);
      case _ =>
    }
  }

  lemma PublishKeepsInv<T>(s: Ring<T>, item: T)
    requires Inv(s) && s.producer.Written?
    ensures Inv(s.ProducerStep(item))
  {
    var r := s.ProducerStep(item);
    assert r.pushed[..s.tail] == s.pushed[..s.tail];
    forall c | r.tail <= c < r.head
      ensures r.At(c) == Item(r.pushed[c])
    {
      assert r.At(c) == s.At(c);
    }
  }

  lemma ConsumerKeepsInv<T>(s: Ring<T>)
    requires Inv(s)
    ensures Inv(s.ConsumerStep())
  {
    match s.consumer {
      case Reading(t) => assert s.At(t) == Item(s.pushed[t]);
      case Read(t, x) =>
        var r := s.ConsumerStep();
        assert r.pushed[..t + 1] == s.pushed[..t] + [x];
        assert forall c :: r.tail <= c < r.head ==> r.At(c) == s.At(c);
      case _ =>
    }
  }

  lemma {:induction false} RunKeepsInv<T>(s: Ring<T>, moves: seq<Move<T>>)
    requires Inv(s)
    ensures Inv(Run(s, moves))
    decreases |moves|
  {
    if moves != [] {
      if moves[0].Produce? {
        ProducerKeepsInv(s, moves[0].item);
        RunKeepsInv(s.ProducerStep(moves[0].item), moves[1..]);
      } else {
        ConsumerKeepsInv(s);
        RunKeepsInv(s.ConsumerStep(), moves[1..]);
      }
    }
  }

  // ---------------------------------------------------------------------------------------------
  // Safety over every run
  // ---------------------------------------------------------------------------------------------

  /** What is still buffered: the slots of the window read out in cursor order. */
  function Buffered<T>(s: Ring<T>, from: nat): seq<Slot<T>>
    requires s.Valid()
    decreases s.head - from
  {
    if from >= s.head then [] else [s.At(from)] + Buffered(s, from + 1)
  }

  function Items<T>(xs: seq<T>): seq<Slot<T>> {
    seq(|xs|, i requires 0 <= i < |xs| => Item(xs[i]))
  }

  lemma {:induction false} BufferedIsPushed<T>(s: Ring<T>, from: nat)
    requires Inv(s) && s.tail <= from <= s.head
    ensures Buffered(s, from) == Items(s.pushed[from..])
    decreases s.head - from
  {
    if from < s.head {
      BufferedIsPushed(s, from + 1);
      ItemsFrom(s.pushed, from);
      assert s.At(from) == Item(s.pushed[from]);
    }
  }

  lemma ItemsFrom<T>(xs: seq<T>, from: nat)
    requires from < |xs|
    ensures Items(xs[from..]) == [Item(xs[from])] + Items(xs[from + 1..])
  {
    assert xs[from..] == [xs[from]] + xs[from + 1..];
  }

  /** Under any interleaving: nothing is lost, duplicated or reordered. Popped items followed by
      buffered items are the pushed items, and the ring never holds more than its capacity. */
  lemma FifoUnderInterleaving<T>(bits: nat, default: T, moves: seq<Move<T>>)
    ensures var s := Run(Initial(bits, default), moves);
            && s.tail <= s.head <= s.tail + Pow2(bits)
            && s.cachedTail <= s.tail && s.cachedHead <= s.head
            && Items(s.popped) + Buffered(s, s.tail) == Items(s.pushed)
  {
    InitialInv(bits, default);
    RunKeepsInv(Initial(bits, default), moves);
    RunBits(Initial(bits, default), moves);
    var s := Run(Initial(bits, default), moves);
    BufferedIsPushed(s, s.tail);
    assert s.pushed == s.popped + s.pushed[s.tail..];
  }

  lemma {:induction false} RunBits<T>(s: Ring<T>, moves: seq<Move<T>>)
    requires s.Valid()
    ensures Run(s, moves).bits == s.bits
    decreases |moves|
  {
    if moves != [] {
      RunBits(if moves[0].Produce? then s.ProducerStep(moves[0].item) else s.ConsumerStep(), moves[1..]);
    }
  }

  predicate ProducerInSlot<T>(s: Ring<T>) { s.producer.WriteReady? || s.producer.Writing? || s.producer.Written? }

  predicate ConsumerInSlot<T>(s: Ring<T>) { s.consumer.ReadReady? || s.consumer.Reading? }

  /** No reachable state has both threads at the same slot, and the consumer never meets a torn one. */
  lemma NoSharedSlot<T>(bits: nat, default: T, moves: seq<Move<T>>)
    ensures var s := Run(Initial(bits, default), moves);
            && (ProducerInSlot(s) && ConsumerInSlot(s) ==> Index(s.producer.head, s.bits) != Index(s.consumer.tail, s.bits))
            && (ConsumerInSlot(s) ==> s.At(s.consumer.tail).Item?)
  {
    InitialInv(bits, default);
    RunKeepsInv(Initial(bits, default), moves);
    var s := Run(Initial(bits, default), moves);
    if ProducerInSlot(s) && ConsumerInSlot(s) {
      DistinctSlots(s.tail, s.head, s.bits);
    }
    if ConsumerInSlot(s) {
      assert s.At(s.tail) == Item(s.pushed[s.tail]);
    }
  }

  predicate AllConsume<T>(moves: seq<Move<T>>) { forall i :: 0 <= i < |moves| ==> moves[i].Consume? }

  predicate AllProduce<T>(moves: seq<Move<T>>) { forall i :: 0 <= i < |moves| ==> moves[i].Produce? }

  lemma {:induction false} ConsumerLeavesProducer<T>(s: Ring<T>, moves: seq<Move<T>>)
    requires s.Valid() && AllConsume(moves)
    ensures Run(s, moves).producer == s.producer
    decreases |moves|
  {
    if moves != [] { ConsumerLeavesProducer(s.ConsumerStep(), moves[1..]); }
  }

  lemma {:induction false} ProducerLeavesConsumer<T>(s: Ring<T>, moves: seq<Move<T>>)
    requires s.Valid() && AllProduce(moves)
    ensures Run(s, moves).consumer == s.consumer
    decreases |moves|
  {
    if moves != [] { ProducerLeavesConsumer(s.ProducerStep(moves[0].item), moves[1..]); }
  }

  /** Whatever the consumer does between a push's reload of the tail and its decision, the push is
      refused if and only if the ring was full when the tail was loaded. */
  lemma RefusedPushMetFull<T>(s: Ring<T>, item: T, between: seq<Move<T>>)
    requires Inv(s) && s.producer.MustReloadTail? && AllConsume(between)
    ensures var decided := Run(s.ProducerStep(item), between).ProducerStep(item);
      decided.producer.PIdle? <==> s.head == s.tail + s.N()
  {
    ConsumerLeavesProducer(s.ProducerStep(item), between);
    RunBits(s.ProducerStep(item), between);
  }

  /** Whatever the producer does between a pop's reload of the head and its decision, the pop is
      refused if and only if the ring was empty when the head was loaded. */
  lemma RefusedPopMetEmpty<T>(s: Ring<T>, between: seq<Move<T>>)
    requires Inv(s) && s.consumer.MustReloadHead? && AllProduce(between)
    ensures var decided := Run(s.ConsumerStep(), between).ConsumerStep();
      decided.consumer.CIdle? <==> s.head == s.tail
  {
    ProducerLeavesConsumer(s.ConsumerStep(), between);
  }

  // ---------------------------------------------------------------------------------------------
  // One call on its own
  // ---------------------------------------------------------------------------------------------

  /** Run only the producer until its call returns. */
  function PushAlone<T>(s: Ring<T>, item: T, fuel: nat): (r: Ring<T>)
    requires s.Valid()
    ensures r.Valid()
    decreases fuel
  {
    var next := s.ProducerStep(item);
    if fuel == 0 || next.producer.PIdle? then next else PushAlone(next, item, fuel - 1)
  }

  /** How many steps the current call still needs at most: a call is wait-free. */
  function StepsLeft<T>(p: Producer<T>): nat {
    match p
    case PIdle => 7
    case HeadLoaded(_, _) => 6
    case MustReloadTail(_, _) => 5
    case TailReloaded(_, _, _) => 4
    case WriteReady(_, _) => 3
    case Writing(_, _) => 2
    case Written(_, _) => 1
  }

  /** Whether the call under way ends with a published item if the consumer stays still. */
  predicate Accepts<T>(s: Ring<T>) {
    match s.producer
    case TailReloaded(_, h, t) => h < t + s.N()
    case WriteReady(_, _) => true
    case Writing(_, _) => true
    case Written(_, _) => true
    case _ => s.head < s.tail + s.N()
  }

  /** The argument of the call under way, or of the one that starts with the next step. */
  function Argument<T>(s: Ring<T>, item: T): T { if s.producer.PIdle? then item else s.producer.item }

  /** One step of a call either settles it or leaves its outcome as it was. */
  lemma PushStep<T>(s: Ring<T>, item: T)
    requires Inv(s)
    ensures var next, x := s.ProducerStep(item), Argument(s, item);
      && next.tail == s.tail && next.popped == s.popped
      && (next.producer.PIdle? ==> next.pushed == if Accepts(s) then s.pushed + [x] else s.pushed)
      && (!next.producer.PIdle? ==>
            next.pushed == s.pushed && Argument(next, item) == x && Accepts(next) == Accepts(s)
            && StepsLeft(next.producer) < StepsLeft(s.producer))
  {
  }

  lemma {:induction false} PushAloneCompletes<T>(s: Ring<T>, item: T, fuel: nat)
    requires Inv(s) && fuel + 1 >= StepsLeft(s.producer)
    ensures var r := PushAlone(s, item, fuel);
            && r.producer.PIdle? && r.tail == s.tail && r.popped == s.popped
            && r.pushed == if Accepts(s) then s.pushed + [Argument(s, item)] else s.pushed
    decreases fuel
  {
    ProducerKeepsInv(s, item);
    PushStep(s, item);
    var next := s.ProducerStep(item);
    if fuel > 0 && !next.producer.PIdle? {
      PushAloneCompletes(next, item, fuel - 1);
    }
  }

  lemma {:induction false} PushAloneKeepsInv<T>(s: Ring<T>, item: T, fuel: nat)
    requires Inv(s)
    ensures Inv(PushAlone(s, item, fuel))
    decreases fuel
  {
    ProducerKeepsInv(s, item);
    var next := s.ProducerStep(item);
    if fuel > 0 && !next.producer.PIdle? { PushAloneKeepsInv(next, item, fuel - 1); }
  }

  /** A push that nothing interrupts takes at most seven steps and is the bounded FIFO's push. */
  lemma PushAloneIsEnqueue<T>(s: Ring<T>, item: T, fuel: nat)
    requires Inv(s) && s.producer.PIdle? && fuel >= 6
    ensures var r := PushAlone(s, item, fuel);
            && Inv(r) && r.producer.PIdle? && r.popped == s.popped
            && r.pushed == if s.head - s.tail < s.N() then s.pushed + [item] else s.pushed
  {
    PushAloneCompletes(s, item, fuel);
    PushAloneKeepsInv(s, item, fuel);
  }

  /** Run only the consumer until its call returns. */
  function PopAlone<T>(s: Ring<T>, fuel: nat): (r: Ring<T>)
    requires s.Valid()
    ensures r.Valid()
    decreases fuel
  {
    var next := s.ConsumerStep();
    if fuel == 0 || next.consumer.CIdle? then next else PopAlone(next, fuel - 1)
  }

  function PopStepsLeft<T>(c: Consumer<T>): nat {
    match c
    case CIdle => 7
    case TailLoaded(_) => 6
    case MustReloadHead(_) => 5
    case HeadReloaded(_, _) => 4
    case ReadReady(_) => 3
    case Reading(_) => 2
    case Read(_, _) => 1
  }

  predicate Delivers<T>(s: Ring<T>) {
    match s.consumer
    case HeadReloaded(t, h) => t < h
    case ReadReady(_) => true
    case Reading(_) => true
    case Read(_, _) => true
    case _ => s.tail < s.head
  }

  lemma {:induction false} PopAloneCompletes<T>(s: Ring<T>, fuel: nat)
    requires Inv(s) && fuel + 1 >= PopStepsLeft(s.consumer)
    ensures var r := PopAlone(s, fuel);
            && r.consumer.CIdle? && r.head == s.head && r.pushed == s.pushed
            && r.popped == s.pushed[..if Delivers(s) then s.tail + 1 else s.tail]
    decreases fuel
  {
    ConsumerKeepsInv(s);
    var next := s.ConsumerStep();
    if s.consumer.Reading? { assert s.At(s.tail) == Item(s.pushed[s.tail]); }
    if fuel > 0 && !next.consumer.CIdle? {
      PopAloneCompletes(next, fuel - 1);
    }
  }

  lemma {:induction false} PopAloneKeepsInv<T>(s: Ring<T>, fuel: nat)
    requires Inv(s)
    ensures Inv(PopAlone(s, fuel))
    decreases fuel
  {
    ConsumerKeepsInv(s);
    var next := s.ConsumerStep();
    if fuel > 0 && !next.consumer.CIdle? { PopAloneKeepsInv(next, fuel - 1); }
  }

  /** A pop that nothing interrupts takes the oldest unpopped item, or nothing from an empty ring. */
  lemma PopAloneIsDequeue<T>(s: Ring<T>, fuel: nat)
    requires Inv(s) && s.consumer.CIdle? && fuel >= 6
    ensures var r := PopAlone(s, fuel);
            && Inv(r) && r.consumer.CIdle? && r.pushed == s.pushed
            && r.popped == if s.tail < s.head then s.popped + [s.pushed[s.tail]] else s.popped
  {
    PopAloneCompletes(s, fuel);
    PopAloneKeepsInv(s, fuel);
    if s.tail < s.head { assert s.pushed[..s.tail + 1] == s.pushed[..s.tail] + [s.pushed[s.tail]]; }
  }
}
