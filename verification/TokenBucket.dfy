/** The lock-free token bucket: last refill time (upper 40 bits) and token balance (lower 24 bits) in
    one word, updated by compare-and-swap from any number of threads. */
module TokenBucket {
  import opened Bits
  import opened Wrappers

  /** `(ts << 24) | (tokens & 0xFFFFFF)`: both fields are cut to their width. */
  function Pack(ts: nat, tokens: nat): (w: U64)
    ensures Time(w) == ts % B40 && Tokens(w) == tokens % B24
  {
    (ts % B40) * B24 + tokens % B24
  }

  function Time(w: U64): nat { w / B24 }

  function Tokens(w: U64): nat { w % B24 }

  /** Rate and capacity of one bucket. */
  datatype Limits = Limits(rate: nat, capacity: nat) {

    ghost predicate Valid() { rate < B32 && capacity < B32 }

    /** Tokens earned by `elapsed` milliseconds: a wrapping 64-bit product cut to 32 bits. */
    function Refilled(elapsed: nat): nat { (elapsed * rate % B64) / 1000 % B32 }

    /** Refill time and available tokens that a call at `now` computes from a word. */
    function Refill(w: U64, now: nat): (nat, nat) {
      if now > Time(w) then Earn(Time(w), Tokens(w), Refilled(now - Time(w)), now) else (Time(w), Tokens(w))
    }

    function Earn(last: nat, tokens: nat, refilled: nat, now: nat): (nat, nat) {
      if refilled > 0 then
        var sum := (tokens + refilled) % B32;
        if sum >= capacity then (now, capacity)
        else
          var refilledMs := if rate == 0 then 0 else refilled * 1000 / rate;
          (if last + refilledMs < now then last + refilledMs else now, sum)
      else (last, tokens)
    }

    /** The word a call wants to store, None when it must refuse. */
    function Consume(w: U64, tokens: nat, now: nat): Option<U64> {
      var (ts, available) := Refill(w, now);
      if available < tokens then None else Some(Pack(ts, available - tokens))
    }

    function New(t0: nat): U64 { Pack(t0, capacity) }
  }

  // ---------------------------------------------------------------------------------------------
  // The bucket, with other threads storing between its atomic operations
  // ---------------------------------------------------------------------------------------------

  class LockFreeTokenBucket {
    var state: U64
    const limits: Limits

    constructor (ratePerSec: nat, capacity: nat, initialTimeMs: nat)
      requires Limits(ratePerSec, capacity).Valid()
      ensures limits == Limits(ratePerSec, capacity) && state == limits.New(initialTimeMs)
    {
      limits := Limits(ratePerSec, capacity);
      state := Limits(ratePerSec, capacity).New(initialTimeMs);
    }

    /** `others[k]` is what the word holds when the k-th compare-and-swap fails; once they run out the
        swap succeeds. `seen` is the word the decision was based on. */
    method TryConsume(tokens: nat, nowMs: nat, others: seq<U64>) returns (ok: bool, ghost seen: U64)
      modifies this`state
      ensures seen == old(state) || seen in others
      ensures ok <==> limits.Consume(seen, tokens, nowMs).Some?
      ensures state == if ok then limits.Consume(seen, tokens, nowMs).value else seen
      ensures others == [] ==> seen == old(state)
    {
      var curr := state;
      var retries := 0;
      while true
        invariant 0 <= retries <= |others|
        invariant curr == state && (curr == old(state) || curr in others)
        invariant retries == 0 ==> curr == old(state)
        decreases |others| - retries
      {
        var next := limits.Consume(curr, tokens, nowMs);
        if next.None? {
          return false, curr;
        }
        if retries < |others| {
          state := others[retries];
          curr := state;
          retries := retries + 1;
        } else {
          state := next.value;
          return true, curr;
        }
      }
    }
  }

  // ---------------------------------------------------------------------------------------------
  // Any number of threads
  // ---------------------------------------------------------------------------------------------

  /** A call that has loaded `curr` and not yet swapped. */
  datatype Attempt = Attempt(tokens: nat, now: nat, curr: U64)

  /** `granted` counts tokens of successful calls, `latest` is the largest time any call supplied. */
  datatype System = System(word: U64, pending: map<nat, Attempt>, granted: nat, latest: nat)

  datatype Step =
    | Load(thread: nat, tokens: nat, now: nat)
    | Swap(thread: nat, spurious: bool)

  function Max(a: nat, b: nat): nat { if a < b then b else a }

  function Next(limits: Limits, s: System, step: Step): System {
    match step
    case Load(thread, tokens, now) =>
      if thread in s.pending then s
      else s.(pending := s.pending[thread := Attempt(tokens, now, s.word)], latest := Max(s.latest, now))
    case Swap(thread, spurious) =>
      if thread !in s.pending then s
      else
        var a := s.pending[thread];
        var next := limits.Consume(a.curr, a.tokens, a.now);
        if next.None? then s.(pending := s.pending - {thread})
        else if a.curr == s.word && !spurious then
          s.(word := next.value, pending := s.pending - {thread}, granted := s.granted + a.tokens)
        else s.(pending := s.pending[thread := a.(curr := s.word)])
  }

  function Run(limits: Limits, s: System, steps: seq<Step>): System
    decreases |steps|
  {
    if steps == [] then s else Run(limits, Next(limits, s, steps[0]), steps[1..])
  }

  function Start(limits: Limits, t0: nat): System { System(limits.New(t0), map[], 0, t0) }

  /** Clock readings the packed word can hold and, counted from the bucket's start, the 32-bit refill
      count can. */
  ghost predicate InHorizon(limits: Limits, t0: nat, now: nat) {
    now < B40 && (limits.rate > 1000 && t0 < now ==> (now - t0) * limits.rate < 1000 * B32)
  }

  ghost predicate AllInHorizon(limits: Limits, t0: nat, steps: seq<Step>) {
    forall i :: 0 <= i < |steps| && steps[i].Load? ==> InHorizon(limits, t0, steps[i].now)
  }

  /** The configurations whose refills never credit the same time twice. */
  predicate Faithful(limits: Limits) {
    || limits.rate == 0
    || 1000 % limits.rate == 0
    || limits.rate % 1000 == 0
    || limits.capacity <= Max(1, limits.rate / 1000)
  }

  /** Potential: granted and stored tokens are paid for by the capacity and the credited time. */
  ghost predicate Paid(limits: Limits, t0: nat, granted: nat, ts: nat, tokens: nat) {
    t0 <= ts && 1000 * (granted + tokens) <= 1000 * limits.capacity + limits.rate * (ts - t0)
  }

  ghost predicate Inv(limits: Limits, t0: nat, s: System) {
    && Tokens(s.word) <= limits.capacity
    && Time(s.word) <= s.latest
    && Paid(limits, t0, s.granted, Time(s.word), Tokens(s.word))
    && s.latest < B40
    && forall t :: t in s.pending ==> s.pending[t].now <= s.latest && InHorizon(limits, t0, s.pending[t].now)
  }

  /** Within the horizon a refill is the floor of rate * elapsed / 1000, cut to 32 bits only for
      rates up to 1000. */
  lemma RefilledAtMost(limits: Limits, elapsed: nat)
    ensures 1000 * limits.Refilled(elapsed) <= elapsed * limits.rate
  {
    MulLe(0, elapsed, limits.rate);
    var x := elapsed * limits.rate;
    assert x % B64 <= x by { if x < B64 { DivUnique(x, B64, 0, x); } }
  }

  lemma RefilledExact(limits: Limits, t0: nat, elapsed: nat, now: nat)
    requires t0 + elapsed <= now && InHorizon(limits, t0, now) && limits.rate > 1000
    ensures limits.Refilled(elapsed) == elapsed * limits.rate / 1000
  {
    MulLe(elapsed, now - t0, limits.rate);
    MulLe(0, elapsed, limits.rate);
    DivUnique(elapsed * limits.rate, B64, 0, elapsed * limits.rate);
    DivUnique(elapsed * limits.rate / 1000, B32, 0, elapsed * limits.rate / 1000);
  }

  /** A faithful, non-saturating refill credits exactly the time its tokens cost. */
  lemma CreditExact(limits: Limits, t0: nat, w: U64, now: nat)
    requires Faithful(limits) && InHorizon(limits, t0, now) && t0 <= Time(w) < now && Tokens(w) <= limits.capacity
    requires var q := limits.Refilled(now - Time(w)); q > 0 && Tokens(w) + q < B32 && Tokens(w) + q < limits.capacity
    ensures limits.rate > 0
    ensures limits.rate * (limits.Refilled(now - Time(w)) * 1000 / limits.rate) == 1000 * limits.Refilled(now - Time(w))
  {
    var r, e, q := limits.rate, now - Time(w), limits.Refilled(now - Time(w));
    RefilledAtMost(limits, e);
    if 1000 % r == 0 {
      var d := 1000 / r;
      assert q * 1000 == r * (d * q) by { assert 1000 == r * d; assert (r * d) * q == r * (d * q); }
      DivUnique(q * 1000, r, d * q, 0);
    } else {
      RateAboveThousand(limits, t0, e, q, now);
    }
  }

  lemma RateAboveThousand(limits: Limits, t0: nat, e: nat, q: nat, now: nat)
    requires Faithful(limits) && limits.rate > 0 && 1000 % limits.rate != 0
    requires InHorizon(limits, t0, now) && 1 <= e && t0 + e <= now
    requires q == limits.Refilled(e) && q > 0 && q < limits.capacity
    ensures limits.rate * (q * 1000 / limits.rate) == 1000 * q
  {
    var r := limits.rate;
    if r % 1000 == 0 {
      RefilledExact(limits, t0, e, now);
      var m := r / 1000;
      assert e * r == 1000 * (e * m) by { assert r == 1000 * m; assert e * (1000 * m) == 1000 * (e * m); }
      DivUnique(e * r, 1000, e * m, 0);
      assert q * 1000 == r * e;
      DivUnique(q * 1000, r, e, 0);
    } else if r > 1000 {
      RefillAtLeastPerMs(limits, t0, e, now);
      assert false;
    } else {
      assert false;
    }
  }

  /** Every millisecond earns at least floor(rate / 1000). */
  lemma RefillAtLeastPerMs(limits: Limits, t0: nat, e: nat, now: nat)
    requires InHorizon(limits, t0, now) && limits.rate > 1000 && 1 <= e && t0 + e <= now
    ensures limits.Refilled(e) >= limits.rate / 1000
  {
    RefilledExact(limits, t0, e, now);
    MulLe(1, e, limits.rate);
  }

  /** What a faithful refill can be: nothing, up to the brim, exact credit, or (when the 32-bit sum
      wraps) no gain at all. */
  datatype Shape = Unchanged | Full(q: nat) | Credited(q: nat, ms: nat) | Wrapped

  ghost predicate HasShape(limits: Limits, last: nat, tokens: nat, now: nat, result: (nat, nat), shape: Shape) {
    var (ts, available) := result;
    match shape
    case Unchanged => ts == last && available == tokens
    case Full(q) =>
      last < now == ts && available == limits.capacity <= tokens + q && 1000 * q <= (now - last) * limits.rate
    case Credited(q, ms) =>
      ts == last + ms <= now && available == tokens + q < limits.capacity && limits.rate * ms == 1000 * q
    case Wrapped => last <= ts <= now && available <= tokens
  }

  lemma EarnShape(limits: Limits, last: nat, tokens: nat, q: nat, now: nat) returns (shape: Shape)
    requires q < B32 && tokens < B24 && last < now && 1000 * q <= (now - last) * limits.rate
    requires q > 0 && tokens + q < B32 && tokens + q < limits.capacity
      ==> limits.rate > 0 && limits.rate * (q * 1000 / limits.rate) == 1000 * q
    ensures HasShape(limits, last, tokens, now, limits.Earn(last, tokens, q, now), shape)
  {
    if q == 0 {
      shape := Unchanged;
    } else if tokens + q >= B32 {
      DivUnique(tokens + q, B32, 1, tokens + q - B32);
      shape := if tokens + q - B32 >= limits.capacity then Full(q) else Wrapped;
    } else {
      DivUnique(tokens + q, B32, 0, tokens + q);
      if tokens + q >= limits.capacity {
        shape := Full(q);
      } else {
        CreditWithin(limits.rate, last, now, q, q * 1000 / limits.rate);
        shape := Credited(q, q * 1000 / limits.rate);
      }
    }
  }

  lemma RefillShape(limits: Limits, t0: nat, w: U64, now: nat) returns (shape: Shape)
    requires Faithful(limits) && InHorizon(limits, t0, now) && t0 <= Time(w) && Tokens(w) <= limits.capacity
    ensures HasShape(limits, Time(w), Tokens(w), now, limits.Refill(w, now), shape)
  {
    shape := Unchanged;
    if now > Time(w) {
      var q := limits.Refilled(now - Time(w));
      RefilledAtMost(limits, now - Time(w));
      if q > 0 && Tokens(w) + q < B32 && Tokens(w) + q < limits.capacity { CreditExact(limits, t0, w, now); }
      shape := EarnShape(limits, Time(w), Tokens(w), q, now);
    }
  }

  lemma CreditWithin(rate: nat, t: nat, now: nat, q: nat, ms: nat)
    requires rate > 0 && t < now && rate * ms == 1000 * q && 1000 * q <= (now - t) * rate
    ensures t + ms <= now
  {
    CancelFactor(ms, now - t, rate);
  }

  /** Refilling keeps what was granted paid for, never turns time back and never overfills. */
  lemma RefillPaid(limits: Limits, t0: nat, granted: nat, w: U64, now: nat)
    requires Faithful(limits) && InHorizon(limits, t0, now) && Tokens(w) <= limits.capacity
    requires Paid(limits, t0, granted, Time(w), Tokens(w))
    ensures var (ts, available) := limits.Refill(w, now);
            && Time(w) <= ts <= Max(Time(w), now) && available <= limits.capacity
            && Paid(limits, t0, granted, ts, available)
  {
    var shape := RefillShape(limits, t0, w, now);
    var ts := limits.Refill(w, now).0;
    SplitTime(limits.rate, t0, Time(w), ts);
    MulLe(0, ts - Time(w), limits.rate);
  }

  lemma SplitTime(rate: nat, t0: nat, t: nat, now: nat)
    requires t0 <= t <= now
    ensures rate * (now - t0) == rate * (t - t0) + (now - t) * rate
  {
  }

  // ---------------------------------------------------------------------------------------------
  // The rate bound over every run
  // ---------------------------------------------------------------------------------------------

  lemma GrantPaid(limits: Limits, t0: nat, granted: nat, w: U64, tokens: nat, now: nat, latest: nat)
    requires Faithful(limits) && InHorizon(limits, t0, now) && Tokens(w) <= limits.capacity
    requires Paid(limits, t0, granted, Time(w), Tokens(w)) && Time(w) <= latest && now <= latest < B40
    requires limits.Consume(w, tokens, now).Some?
    ensures var next := limits.Consume(w, tokens, now).value;
            && Paid(limits, t0, granted + tokens, Time(next), Tokens(next))
            && Tokens(next) <= limits.capacity && Time(w) <= Time(next) <= latest
  {
    RefillPaid(limits, t0, granted, w, now);
    var (ts, available) := limits.Refill(w, now);
    DivUnique(ts, B40, 0, ts);
    assert (available - tokens) % B24 <= available - tokens;
  }

  /** What the word keeps whatever the limits: never more tokens than the capacity and, while clocks fit
      the time field, a time no later than the latest reading. */
  ghost predicate WordInv(limits: Limits, s: System) {
    && Tokens(s.word) <= limits.capacity
    && (s.latest < B40 ==> Time(s.word) <= s.latest)
    && forall t :: t in s.pending ==> s.pending[t].now <= s.latest
  }

  lemma RefillKeepsWord(limits: Limits, w: U64, now: nat)
    requires Tokens(w) <= limits.capacity
    ensures limits.Refill(w, now).1 <= limits.capacity
    ensures Time(w) <= limits.Refill(w, now).0 <= Max(Time(w), now)
  {
  }

  lemma StepKeepsWord(limits: Limits, s: System, step: Step)
    requires WordInv(limits, s)
    ensures var next := Next(limits, s, step);
      && WordInv(limits, next) && s.latest <= next.latest
      && (next.latest < B40 ==> Time(s.word) <= Time(next.word))
  {
    if step.Swap? && step.thread in s.pending {
      var a := s.pending[step.thread];
      if limits.Consume(a.curr, a.tokens, a.now).Some? && a.curr == s.word && !step.spurious {
        RefillKeepsWord(limits, s.word, a.now);
        var (ts, available) := limits.Refill(s.word, a.now);
        assert (available - a.tokens) % B24 <= available - a.tokens;
        if s.latest < B40 { DivUnique(ts, B40, 0, ts); }
      }
    }
  }

  /** Whatever the limits and the interleaving, tokens never exceed the capacity, and time never runs
      back nor past the latest reading before the clock leaves the 40-bit field. */
  lemma {:induction false} RunKeepsWord(limits: Limits, s: System, steps: seq<Step>)
    requires WordInv(limits, s)
    ensures var last := Run(limits, s, steps);
      && WordInv(limits, last) && s.latest <= last.latest
      && (last.latest < B40 ==> Time(s.word) <= Time(last.word))
    decreases |steps|
  {
    if steps != [] {
      StepKeepsWord(limits, s, steps[0]);
      RunKeepsWord(limits, Next(limits, s, steps[0]), steps[1..]);
    }
  }

  lemma StepKeepsInv(limits: Limits, t0: nat, s: System, step: Step)
    requires Faithful(limits) && Inv(limits, t0, s) && (step.Load? ==> InHorizon(limits, t0, step.now))
    ensures Inv(limits, t0, Next(limits, s, step)) && Time(s.word) <= Time(Next(limits, s, step).word)
  {
    if step.Swap? && step.thread in s.pending {
      var a := s.pending[step.thread];
      if limits.Consume(a.curr, a.tokens, a.now).Some? && a.curr == s.word && !step.spurious {
        GrantPaid(limits, t0, s.granted, s.word, a.tokens, a.now, s.latest);
      }
    }
  }

  lemma {:induction false} RunKeepsInv(limits: Limits, t0: nat, s: System, steps: seq<Step>)
    requires Faithful(limits) && Inv(limits, t0, s) && AllInHorizon(limits, t0, steps)
    ensures Inv(limits, t0, Run(limits, s, steps)) && Time(s.word) <= Time(Run(limits, s, steps).word)
    decreases |steps|
  {
    if steps != [] {
      StepKeepsInv(limits, t0, s, steps[0]);
      RunKeepsInv(limits, t0, Next(limits, s, steps[0]), steps[1..]);
    }
  }

  lemma StartInv(limits: Limits, t0: nat)
    requires t0 < B40
    ensures Inv(limits, t0, Start(limits, t0))
  {
    DivUnique(t0, B40, 0, t0);
    assert limits.capacity % B24 <= limits.capacity;
  }

  /** Tokens granted by any interleaving of calls stay within capacity plus rate times elapsed time. */
  ghost predicate WithinRate(limits: Limits, t0: nat, s: System) {
    t0 <= s.latest && 1000 * s.granted <= 1000 * limits.capacity + limits.rate * (s.latest - t0)
  }

  ghost predicate RateBounded(limits: Limits) {
    forall t0: nat, steps: seq<Step> :: t0 < B40 && AllInHorizon(limits, t0, steps)
      ==> WithinRate(limits, t0, Run(limits, Start(limits, t0), steps))
  }

  lemma InvIsWithinRate(limits: Limits, t0: nat, s: System)
    requires Inv(limits, t0, s)
    ensures WithinRate(limits, t0, s)
  {
    MulLe(Time(s.word) - t0, s.latest - t0, limits.rate);
  }

  lemma FaithfulIsRateBounded(limits: Limits)
    requires Faithful(limits)
    ensures RateBounded(limits)
  {
    forall t0: nat, steps: seq<Step> | t0 < B40 && AllInHorizon(limits, t0, steps)
      ensures WithinRate(limits, t0, Run(limits, Start(limits, t0), steps))
    {
      StartInv(limits, t0);
      RunKeepsInv(limits, t0, Start(limits, t0), steps);
      InvIsWithinRate(limits, t0, Run(limits, Start(limits, t0), steps));
    }
  }

  // ---------------------------------------------------------------------------------------------
  // Why other rates break the bound
  // ---------------------------------------------------------------------------------------------

  /** One call that no other thread disturbs. */
  function Call(tokens: nat, now: nat): seq<Step> { [Load(0, tokens, now), Swap(0, false)] }

  lemma CallGrants(limits: Limits, s: System, tokens: nat, now: nat)
    requires s.pending == map[] && limits.Consume(s.word, tokens, now).Some?
    ensures Run(limits, s, Call(tokens, now))
         == System(limits.Consume(s.word, tokens, now).value, map[], s.granted + tokens, Max(s.latest, now))
  {
    var s1 := Next(limits, s, Load(0, tokens, now));
    var s2 := Next(limits, s1, Swap(0, false));
    assert Call(tokens, now)[1..] == [Swap(0, false)];
    assert Run(limits, s1, [Swap(0, false)]) == Run(limits, s2, []);
    assert s2.pending == map[];
  }

  lemma {:induction false} RunAppend(limits: Limits, s: System, a: seq<Step>, b: seq<Step>)
    ensures Run(limits, s, a + b) == Run(limits, Run(limits, s, a), b)
    decreases |a|
  {
    if a == [] {
      assert a + b == b;
    } else {
      assert (a + b)[1..] == a[1..] + b;
      RunAppend(limits, Next(limits, s, a[0]), a[1..], b);
    }
  }

  /** k calls of one token each, spaced so that each earns one token but credits one millisecond less
      than it waited for. */
  function Drip(w: nat, k: nat): seq<Step> {
    if k == 0 then [] else Drip(w, k - 1) + Call(1, w * (k - 1) + w + 1)
  }

  function Dripped(limits: Limits, w: nat, k: nat): System {
    MulLe(0, k, w);
    System(Pack(w * k, 0), map[], limits.capacity + k, if k == 0 then 0 else w * k + 1)
  }

  lemma {:induction false} DripGrants(limits: Limits, w: nat, k: nat)
    requires 1 < limits.rate < 1000 && 1000 % limits.rate != 0 && limits.capacity > 1 && w == 1000 / limits.rate
    requires w * k + 1 < B40
    ensures Run(limits, Dripped(limits, w, 0), Drip(w, k)) == Dripped(limits, w, k)
  {
    if k > 0 {
      MulLe(k - 1, k, w);
      DripGrants(limits, w, k - 1);
      RunAppend(limits, Dripped(limits, w, 0), Drip(w, k - 1), Call(1, w * (k - 1) + w + 1));
      DripNext(limits, w, k);
    }
  }

  lemma DripNext(limits: Limits, w: nat, k: nat)
    requires 1 < limits.rate < 1000 && 1000 % limits.rate != 0 && limits.capacity > 1 && w == 1000 / limits.rate
    requires w * k + 1 < B40 && k > 0
    ensures Run(limits, Dripped(limits, w, k - 1), Call(1, w * (k - 1) + w + 1)) == Dripped(limits, w, k)
  {
    MulLe(0, k - 1, w);
    assert w * (k - 1) + w == w * k;
    DripCall(limits, w, w * (k - 1), limits.capacity + (k - 1), if k - 1 == 0 then 0 else w * (k - 1) + 1);
  }

  lemma DripCall(limits: Limits, w: nat, last: nat, granted: nat, latest: nat)
    requires 1 < limits.rate < 1000 && 1000 % limits.rate != 0 && limits.capacity > 1 && w == 1000 / limits.rate
    requires last + w + 1 < B40 && latest <= last + w + 1
    ensures Run(limits, System(Pack(last, 0), map[], granted, latest), Call(1, last + w + 1))
         == System(Pack(last + w, 0), map[], granted + 1, last + w + 1)
  {
    DripStep(limits, w, last);
    CallGrants(limits, System(Pack(last, 0), map[], granted, latest), 1, last + w + 1);
  }

  lemma {:induction false} DripInHorizon(limits: Limits, w: nat, k: nat)
    requires limits.rate < 1000 && w * k + 1 < B40
    ensures AllInHorizon(limits, 0, Drip(w, k))
  {
    if k > 0 {
      MulLe(k - 1, k, w);
      assert w * (k - 1) + w == w * k;
      DripInHorizon(limits, w, k - 1);
    }
  }

  lemma DripStep(limits: Limits, w: nat, last: nat)
    requires 1 < limits.rate < 1000 && 1000 % limits.rate != 0 && limits.capacity > 1 && w == 1000 / limits.rate
    requires last + w + 1 < B40
    ensures limits.Consume(Pack(last, 0), 1, last + w + 1) == Some(Pack(last + w, 0))
  {
    var r := limits.rate;
    DivUnique(last, B40, 0, last);
    assert 1000 == r * w + 1000 % r;
    assert (w + 1) * r == r * w + r;
    DivUnique((w + 1) * r, B64, 0, (w + 1) * r);
    assert limits.Refilled(w + 1) == 1;
  }

  lemma BreaksBound(limits: Limits, steps: seq<Step>, s: System)
    requires AllInHorizon(limits, 0, steps) && s == Run(limits, Start(limits, 0), steps) && !WithinRate(limits, 0, s)
    ensures !RateBounded(limits)
  {
  }

  /** A rate below 1000 that does not divide it drifts past the bound after rate + 1 drips. */
  lemma SlowRateDrifts(limits: Limits)
    requires 1 < limits.rate < 1000 && 1000 % limits.rate != 0 && 1 < limits.capacity < B24
    ensures !RateBounded(limits)
  {
    var r, w, cap := limits.rate, 1000 / limits.rate, limits.capacity;
    var k := r + 1;
    assert r * w + 1000 % r == 1000;
    assert w * k == r * w + w;
    DripRun(limits, w, k);
    DriftArithmetic(r, w);
    BreaksBound(limits, Call(cap, 0) + Drip(w, k), System(Pack(w * k, 0), map[], cap + k, w * k + 1));
  }

  lemma DripRun(limits: Limits, w: nat, k: nat)
    requires 1 < limits.rate < 1000 && 1000 % limits.rate != 0 && 1 < limits.capacity < B24 && w == 1000 / limits.rate
    requires w * k + 1 < B40 && k > 0
    ensures AllInHorizon(limits, 0, Call(limits.capacity, 0) + Drip(w, k))
    ensures Run(limits, Start(limits, 0), Call(limits.capacity, 0) + Drip(w, k))
         == System(Pack(w * k, 0), map[], limits.capacity + k, w * k + 1)
  {
    DrainWord(limits);
    CallGrants(limits, Start(limits, 0), limits.capacity, 0);
    DripGrants(limits, w, k);
    DripInHorizon(limits, w, k);
    RunAppend(limits, Start(limits, 0), Call(limits.capacity, 0), Drip(w, k));
  }

  lemma DriftArithmetic(r: nat, w: nat)
    requires r > 0 && r * w + 1 <= 1000
    ensures 1000 * (r + 1) > r * (w * (r + 1) + 1)
  {
    assert r * (w * (r + 1) + 1) == (r * w) * (r + 1) + r;
    MulLe(r * w, 999, r + 1);
  }

  /** Taking everything at time zero leaves an empty word stamped zero. */
  lemma DrainWord(limits: Limits)
    requires limits.capacity < B24
    ensures limits.Consume(limits.New(0), limits.capacity, 0) == Some(Pack(0, 0))
  {
    DivUnique(limits.capacity, B24, 0, limits.capacity);
  }

  /** A rate above 1000 that is no multiple of it grants floor(rate / 1000) tokens per call for ever
      within one millisecond: the credited time rounds to zero. */
  lemma FastRateRepeats(limits: Limits)
    requires 1000 < limits.rate < B32 && limits.rate % 1000 != 0 && limits.rate / 1000 < limits.capacity < B24
    ensures !RateBounded(limits)
  {
    var r, m, cap := limits.rate, limits.rate / 1000, limits.capacity;
    DrainWord(limits);
    FastStep(limits);
    CallGrants(limits, Start(limits, 0), cap, 0);
    var s1 := Run(limits, Start(limits, 0), Call(cap, 0));
    CallGrants(limits, s1, m, 1);
    var s2 := Run(limits, s1, Call(m, 1));
    CallGrants(limits, s2, m, 1);
    RunAppend(limits, s1, Call(m, 1), Call(m, 1));
    RunAppend(limits, Start(limits, 0), Call(cap, 0), Call(m, 1) + Call(m, 1));
    var s := Run(limits, s2, Call(m, 1));
    assert s.granted == cap + m + m && s.latest == 1;
    BreaksBound(limits, Call(cap, 0) + (Call(m, 1) + Call(m, 1)), s);
  }

  lemma FastStep(limits: Limits)
    requires 1000 < limits.rate < B32 && limits.rate % 1000 != 0 && limits.rate / 1000 < limits.capacity < B24
    ensures limits.Consume(Pack(0, 0), limits.rate / 1000, 1) == Some(Pack(0, 0))
  {
    var r, m := limits.rate, limits.rate / 1000;
    DivUnique(r, B64, 0, r);
    DivUnique(m, B32, 0, m);
    assert limits.Refilled(1) == m;
    DivUnique(m * 1000, r, 0, m * 1000);
  }

  /** The whole-run rate bound holds exactly for the faithful configurations. */
  lemma RateBoundedIffFaithful(limits: Limits)
    requires limits.rate < B32 && limits.capacity < B24
    ensures RateBounded(limits) <==> Faithful(limits)
  {
    if Faithful(limits) {
      FaithfulIsRateBounded(limits);
    } else if limits.rate < 1000 {
      SlowRateDrifts(limits);
    } else {
      FastRateRepeats(limits);
    }
  }

  // ---------------------------------------------------------------------------------------------
  // What a bucket owes its callers
  // ---------------------------------------------------------------------------------------------

  /** Whole tokens that the time between a word and a reading is worth. */
  function Earned(limits: Limits, w: U64, now: nat): nat
    requires Time(w) <= now
  {
    MulLe(0, limits.rate, now - Time(w));
    (now - Time(w)) * limits.rate / 1000
  }

  /** Neither the refill nor its sum with the stored tokens leaves its machine word. */
  ghost predicate InWords(limits: Limits, w: U64, now: nat) {
    Time(w) <= now && (now - Time(w)) * limits.rate < B64 && Tokens(w) + Earned(limits, w, now) < B32
  }

  function Min(a: nat, b: nat): nat { if a < b then a else b }

  /** A call is granted if and only if the stored tokens and those earned since, up to the capacity,
      cover it; the word keeps the rest. */
  lemma GrantedIff(limits: Limits, w: U64, tokens: nat, now: nat)
    requires InWords(limits, w, now) && Tokens(w) <= limits.capacity
    ensures var available, next :=
        Min(limits.capacity, Tokens(w) + Earned(limits, w, now)), limits.Consume(w, tokens, now);
      && (next.Some? <==> tokens <= available)
      && (next.Some? && limits.capacity < B24 ==> Tokens(next.value) == available - tokens)
  {
    EarnedIsRefilled(limits, w, now);
    var q := Earned(limits, w, now);
    DivUnique(Tokens(w) + q, B32, 0, Tokens(w) + q);
    if tokens <= Min(limits.capacity, Tokens(w) + q) < B24 {
      var rest := Min(limits.capacity, Tokens(w) + q) - tokens;
      DivUnique(rest, B24, 0, rest);
    }
  }

  lemma EarnedIsRefilled(limits: Limits, w: U64, now: nat)
    requires InWords(limits, w, now)
    ensures limits.Refilled(now - Time(w)) == Earned(limits, w, now)
  {
    var x := (now - Time(w)) * limits.rate;
    MulLe(0, limits.rate, now - Time(w));
    DivUnique(x, B64, 0, x);
    DivUnique(x / 1000, B32, 0, x / 1000);
  }

  /** A granted call that fills the bucket credits all the time up to its reading; any other credits
      what its tokens cost, rounded down to the millisecond. */
  lemma CreditedTime(limits: Limits, w: U64, tokens: nat, now: nat)
    requires InWords(limits, w, now) && Tokens(w) <= limits.capacity && now < B40
    requires limits.Consume(w, tokens, now).Some?
    ensures var q, ts := Earned(limits, w, now), Time(limits.Consume(w, tokens, now).value);
      if q > 0 && Tokens(w) + q >= limits.capacity then ts == now
      else
        && Time(w) <= ts <= now && limits.rate * (ts - Time(w)) <= 1000 * q
        && (limits.rate > 0 ==> 1000 * q < limits.rate * (ts - Time(w)) + limits.rate)
  {
    EarnedIsRefilled(limits, w, now);
    var q := Earned(limits, w, now);
    EarnedTime(limits, Time(w), Tokens(w), q, now);
    var ts := limits.Refill(w, now).0;
    DivUnique(ts, B40, 0, ts);
  }

  lemma EarnedTime(limits: Limits, last: nat, tokens: nat, q: nat, now: nat)
    requires last <= now && q == (now - last) * limits.rate / 1000 && tokens + q < B32
    ensures var ts := limits.Earn(last, tokens, q, now).0;
      if q > 0 && tokens + q >= limits.capacity then ts == now
      else
        && last <= ts <= now && limits.rate * (ts - last) <= 1000 * q
        && (limits.rate > 0 ==> 1000 * q < limits.rate * (ts - last) + limits.rate)
  {
    DivUnique(tokens + q, B32, 0, tokens + q);
    if q > 0 && tokens + q < limits.capacity {
      CostInTime(limits.rate, now - last, q);
    } else {
      assert limits.rate * 0 == 0;
    }
  }

  lemma ZeroEarnsNothing(elapsed: nat, rate: nat)
    requires rate == 0
    ensures elapsed * rate / 1000 == 0
  {
  }

  lemma CostInTime(rate: nat, elapsed: nat, q: nat)
    requires 0 < q && q == elapsed * rate / 1000
    ensures rate > 0 && 0 <= q * 1000 / rate <= elapsed
    ensures rate * (q * 1000 / rate) <= 1000 * q < rate * (q * 1000 / rate) + rate
  {
    if rate == 0 {
      ZeroEarnsNothing(elapsed, rate);
    } else {
      QuotientBounds(q * 1000, rate);
      MulLe(0, rate, elapsed);
      CancelFactor(q * 1000 / rate, elapsed, rate);
    }
  }

  /** No attempt of the run sees enough time to fill the bucket, and none overflows a word. */
  ghost predicate NeverFills(limits: Limits, s: System, steps: seq<Step>)
    decreases |steps|
  {
    steps != [] ==>
      && (steps[0].Swap? && steps[0].thread in s.pending ==>
            var a := s.pending[steps[0].thread];
            a.now > Time(a.curr) ==>
              InWords(limits, a.curr, a.now) && Tokens(a.curr) + Earned(limits, a.curr, a.now) < limits.capacity)
      && NeverFills(limits, Next(limits, s, steps[0]), steps[1..])
  }

  lemma GrantEarns(limits: Limits, w: U64, tokens: nat, now: nat)
    requires Tokens(w) <= limits.capacity < B24 && now < B40 && limits.Consume(w, tokens, now).Some?
    requires now > Time(w) ==> InWords(limits, w, now) && Tokens(w) + Earned(limits, w, now) < limits.capacity
    ensures var next := limits.Consume(w, tokens, now).value;
      1000 * (tokens + Tokens(next)) >= 1000 * Tokens(w) + limits.rate * (Time(next) - Time(w))
  {
    if now > Time(w) {
      GrantedIff(limits, w, tokens, now);
      CreditedTime(limits, w, tokens, now);
    } else {
      DivUnique(Time(w), B40, 0, Time(w)) by { assert w < B64; }
      DivUnique(Tokens(w) - tokens, B24, 0, Tokens(w) - tokens);
      assert limits.rate * 0 == 0;
    }
  }

  /** Time credited is never lost: while the bucket does not fill, what was granted and what is stored
      grow by at least rate times the time the word moved on, whatever the rate and the interleaving. */
  lemma {:induction false} RunEarns(limits: Limits, s: System, steps: seq<Step>)
    requires WordInv(limits, s) && limits.capacity < B24
    requires Run(limits, s, steps).latest < B40 && NeverFills(limits, s, steps)
    ensures var last := Run(limits, s, steps);
      1000 * (last.granted + Tokens(last.word))
        >= 1000 * (s.granted + Tokens(s.word)) + limits.rate * (Time(last.word) - Time(s.word))
    decreases |steps|
  {
    if steps == [] {
      assert limits.rate * 0 == 0;
    } else {
      var next := Next(limits, s, steps[0]);
      StepKeepsWord(limits, s, steps[0]);
      RunKeepsWord(limits, next, steps[1..]);
      StepEarns(limits, s, steps);
      RunEarns(limits, next, steps[1..]);
      SplitCredit(limits.rate, Time(s.word), Time(next.word), Time(Run(limits, s, steps).word));
    }
  }

  lemma SplitCredit(rate: int, a: int, b: int, c: int)
    ensures rate * (c - a) == rate * (b - a) + rate * (c - b)
  {
  }

  lemma StepEarns(limits: Limits, s: System, steps: seq<Step>)
    requires WordInv(limits, s) && limits.capacity < B24 && s.latest < B40
    requires steps != [] && NeverFills(limits, s, steps)
    ensures var next := Next(limits, s, steps[0]);
      1000 * (next.granted + Tokens(next.word))
        >= 1000 * (s.granted + Tokens(s.word)) + limits.rate * (Time(next.word) - Time(s.word))
  {
    var step := steps[0];
    assert limits.rate * 0 == 0;
    if step.Swap? && step.thread in s.pending {
      var a := s.pending[step.thread];
      if limits.Consume(a.curr, a.tokens, a.now).Some? && a.curr == s.word && !step.spurious {
        GrantEarns(limits, s.word, a.tokens, a.now);
      }
    }
  }

  lemma RefusedShort(limits: Limits, w: U64, tokens: nat, now: nat)
    requires InWords(limits, w, now) && Tokens(w) <= limits.capacity && tokens <= limits.capacity
    requires limits.Consume(w, tokens, now).None?
    ensures 1000 * tokens > 1000 * Tokens(w) + limits.rate * (now - Time(w))
  {
    GrantedIff(limits, w, tokens, now);
    MulLe(0, limits.rate, now - Time(w));
  }

  /** So after such a run a call within the capacity is refused only if granting it would exceed what
      the bucket held plus rate times the time elapsed since. */
  lemma RefusedOnlyAtLimit(limits: Limits, s: System, steps: seq<Step>, tokens: nat, now: nat)
    requires WordInv(limits, s) && limits.capacity < B24 && tokens <= limits.capacity
    requires Run(limits, s, steps).latest < B40 && NeverFills(limits, s, steps)
    requires InWords(limits, Run(limits, s, steps).word, now)
    requires limits.Consume(Run(limits, s, steps).word, tokens, now).None?
    ensures 1000 * (Run(limits, s, steps).granted + tokens)
      > 1000 * (s.granted + Tokens(s.word)) + limits.rate * (now - Time(s.word))
  {
    var last := Run(limits, s, steps);
    RunKeepsWord(limits, s, steps);
    RunEarns(limits, s, steps);
    RefusedShort(limits, last.word, tokens, now);
    SplitCredit(limits.rate, Time(s.word), Time(last.word), now);
  }

  // ---------------------------------------------------------------------------------------------
  // Past the time field
  // ---------------------------------------------------------------------------------------------

  /** From 2^40 ms on the stored time reads back as `now % B40`, so a bucket drained at `now` earns the
      difference again at the same instant: it can be drained once more exactly when the cut refill
      reaches the capacity. */
  lemma DrainedAgainIff(limits: Limits, now: nat)
    requires limits.Valid() && limits.capacity < B24 && now >= B40
    ensures Time(Pack(now, 0)) == now % B40
    ensures limits.Consume(Pack(now, 0), limits.capacity, now)
         == if limits.Refilled(now - now % B40) >= limits.capacity then Some(Pack(now, 0)) else None
  {
    var q := limits.Refilled(now - now % B40);
    DivUnique(q, B32, 0, q);
    DivUnique(now % B40, B40, 0, now % B40);
  }

  function Drains(limits: Limits, now: nat, k: nat): seq<Step> {
    if k == 0 then [] else Call(limits.capacity, now) + Drains(limits, now, k - 1)
  }

  lemma CallRefused(limits: Limits, s: System, tokens: nat, now: nat)
    requires s.pending == map[] && limits.Consume(s.word, tokens, now).None?
    ensures Run(limits, s, Call(tokens, now)) == s.(latest := Max(s.latest, now))
  {
    var s1 := Next(limits, s, Load(0, tokens, now));
    var s2 := Next(limits, s1, Swap(0, false));
    assert Call(tokens, now)[1..] == [Swap(0, false)];
    assert Run(limits, s1, [Swap(0, false)]) == Run(limits, s2, []);
    assert s2.pending == map[];
  }

  /** k more calls for the whole capacity at the instant a bucket was drained are all granted, or none. */
  lemma {:induction false} DrainsAtOneInstant(limits: Limits, now: nat, s: System, k: nat)
    requires limits.Valid() && limits.capacity < B24 && B40 <= now <= s.latest
    requires s.pending == map[] && s.word == Pack(now, 0)
    ensures Run(limits, s, Drains(limits, now, k)) == s.(granted := s.granted
      + if limits.Refilled(now - now % B40) >= limits.capacity then k * limits.capacity else 0)
    decreases k
  {
    if k > 0 {
      DrainedAgainIff(limits, now);
      RunAppend(limits, s, Call(limits.capacity, now), Drains(limits, now, k - 1));
      if limits.Refilled(now - now % B40) >= limits.capacity {
        CallGrants(limits, s, limits.capacity, now);
        DrainsAtOneInstant(limits, now, s.(granted := s.granted + limits.capacity), k - 1);
        assert k * limits.capacity == limits.capacity + (k - 1) * limits.capacity;
      } else {
        CallRefused(limits, s, limits.capacity, now);
        DrainsAtOneInstant(limits, now, s, k - 1);
      }
    }
  }
}
