# Verified models of the market-data engine's core

A Dafny model of six parts of the engine, each written in the form of the code it follows, with proofs
about all inputs and all runs. `dafny verify dfyconfig.toml` checks everything.

- **Stableswap solver.** `Uint256` is the two-limb 256-bit integer, proved against plain integers:
  addition, subtraction and multiplication modulo 2^256, division exact. `Stableswap` holds the unbounded
  recurrences of `get_d` and `get_y` and what they settle on; `Settling` says when `get_d` does. `WordSolver`
  is what both compute on words for every input, wrapping included, and when that is the unbounded result.
  `Curve` is the pool itself on 256-bit words: its methods equal the word recurrences on every input, and the
  unbounded ones under bounds (`Fits`, `SwapFits`) that can be evaluated before the call and that ordinary
  pools always meet (`EverydaySwapFits`). `SwapInvariant` says which equation `get_y` solves: with its result
  in place, the pool is on the exact invariant of its own D, up to the floors.
- **Rings and queues.** `SpscRing` interleaves one producer and one consumer at every atomic step.
  `ConsumerQueue`, `ShmRing` and `KernelBypass` are classes over arrays, taken one whole call at a time;
  `RingIndex` is the masked slot index they share.
- **Token bucket.** `TokenBucket` is the packed word, the compare-and-swap loop with other threads storing
  in between, and a system of any number of calls in flight.
- **Feed session.** `FeedSession` is the message-level state machine on already parsed frames; `FeedEvents`
  says what its events, complaints and counters carry over whole runs.
- **Distribution.** `ClientBitmap`, `Router`, `FastJson` and `DecimalText`: the subscription index, the
  fan-out, and the printer. `JsonReader` is a reader of JSON objects written on its own, and `JsonRoundTrip`
  proves that it finds every field of a record in the text the printer writes.
- **Numbers, prices and dates.** `FixedPoint` parses what `FastJson` prints; `OrderBook` is the flat book
  with its cached best index; `VirtualBook` the constant-product depth bands; `CivilDate` the timestamp
  parser, and `DateText` a printer of timestamps that the parser inverts.

`Bits`, `Sequences`, `Wrappers` and `MarketData` are shared vocabulary: words bit by bit, sequence facts,
Option and Result, the normalized records. Arithmetic follows the release profile, in which overflow
checks are off: where a machine word can overflow, the wrap is written out.

## Where the code and its documentation part

- `curve.rs` lines 12 and 213 promise that `get_d` converges, in at most four steps for balanced pools.
  `NewtonCanCycle` gives a pool on which it never settles and runs all of its 255 steps. `SteadySettles`
  proves that it does settle, and on what, for every pool whose amplification outweighs what the floors
  inside `d_p` can lose, which from A = 50 on takes a balance below a 198th of the sum to miss, a 75th with
  three coins (`TypicalPoolsSteady`). The condition bounds the loss, so it is sufficient and not necessary:
  with less amplification some pools cycle (`NewtonCanCycle`) and some settle (`UnsteadyCanSettle`), as the
  remainders of their own divisions fall. Its sum of at least 40 units keeps the iterates so large that one
  unit is small against them. `get_y`, by contrast, always settles when its setup fits (`SolveFindsRoot`).
- The token bucket is described as a rate limiter. `RateBoundedIffFaithful` says for exactly which rates and
  capacities the stated rate is the real one. Elsewhere the refill credits less time than it used.
- The bridge reposts recycled buffers, yet a poll that delivers something forgets every buffer that was
  posted and not yet filled (`kernel_bypass.rs` lines 354-355). `CirculationIsLeastBacklog` says how many
  are left.
- The router's bitmaps hold ids below 1024. `subscribe` accepts any id and reports success, and a client
  beyond that is never dispatched to (`ReceivesIffEntitled`).
- `website/docs/distribution/topic-routing.md` shows another topic key layout than `TopicKey::new`; the
  model follows the code.
- The best-price cache is correct over every run of tick-aligned prices at or above the base
  (`BboIsFullScan`). Off that grid `UpdateKeepsBestIff` is the exact condition for one update. Two runs
  violate it: prices on both sides of the base that share a slot (`StraddlingFoolsCache`), and, with a slot
  for every price, a bid at price 0 that a rescan cannot see (`UnseenBidFoolsCache`).
- The token bucket keeps 40 bits of its clock. A reading from 2^40 ms on is read back short, and whether the
  bucket can then be drained again and again at one instant is decided by `DrainedAgainIff`.
- The ISO-8601 parser accepts day numbers past the end of a month and text after the `Z`, and its 64-bit
  count wraps from the year 2554 on.

## Model

| member | source | states |
|---|---|---|
| `Uint256.U256.Add` | crates/amm-virtualizer/src/curve.rs:49-56 | the 256-bit sum modulo 2^256, carries between limbs included |
| `Uint256.U256.Sub` | crates/amm-virtualizer/src/curve.rs:59-66 | the difference modulo 2^256, borrow included |
| `Uint256.U256.MulU128` | crates/amm-virtualizer/src/curve.rs:68-87 | a 256 x 128 product by 64-bit halves is the true product modulo 2^256 |
| `Uint256.U256.Mul` | crates/amm-virtualizer/src/curve.rs:89-93 | the 256 x 256 product modulo 2^256 |
| `Uint256.MulExactIff` | crates/amm-virtualizer/src/curve.rs:68-93 | `mul` is exact if and only if the true product is below 2^256 |
| `Uint256.U256.Div` | crates/amm-virtualizer/src/curve.rs:95-120 | the exact floor quotient for every dividend and every non-zero divisor, divisors above 2^255 included |
| `Uint256.LongDivisionStep` | crates/amm-virtualizer/src/curve.rs:103-119 | before each shift of the division loop the remainder is below 2^255, the prefix equation extends by the next dividend bit, and the quotient bit about to be set is clear |
| `Uint256.BitOfValue` | crates/amm-virtualizer/src/curve.rs:130-136 | bit i of the limb pair is bit i of the 256-bit value |
| `Stableswap.SolveNearInvariant` | crates/amm-virtualizer/src/curve.rs:229-259 | from any start in range, either all 255 steps move by more than one, or the returned D comes from a previous iterate p with -2 den < p (D_P + (Ann-1) p - Ann S) <= den and differs from p by at most one |
| `Stableswap.Pool.NextInRange` | crates/amm-virtualizer/src/curve.rs:229-249 | every iterate d of `get_d` keeps (Ann-1) d <= Ann S, and stays positive |
| `Stableswap.IteratesAtMostTwiceSum` | crates/amm-virtualizer/src/curve.rs:229-259 | hence every iterate is at most twice the sum of the balances |
| `Stableswap.EqualBalances` | crates/amm-virtualizer/src/curve.rs:214-259 | a pool with equal balances returns exactly their sum |
| `Stableswap.ProductIsRoundedPower` | crates/amm-virtualizer/src/curve.rs:230-238 | the multiply-divide chain is the exact d^(k+1) / (n^k x_1..x_k) rounded down, off by a stated bound |
| `Stableswap.NewtonCanCycle` | crates/amm-virtualizer/src/curve.rs:212-259 | a concrete two-coin pool (584 and 1, A = 1) on which no step ever moves by one or less: the documented convergence does not hold of every pool |
| `Settling.SteadySettles` | crates/amm-virtualizer/src/curve.rs:212-259 | for every pool whose Ann is at least twice the rounding loss of d_p at S / (n min x) + 1, less one, with a sum from 40 up to three 128-bit words: `get_d` leaves through its closeness test within 255 passes, near the invariant, and returns the exact real-valued D rounded down or one more |
| `Settling.SkewIsSteady` | crates/amm-virtualizer/src/curve.rs:229-238 | Ann - 1 at or above the loss at the skew that bounds every iterate, with a sum from 40, is enough for that condition |
| `Settling.TypicalPoolsSteady` | crates/amm-virtualizer/src/curve.rs:158-158 | from A = 50 on it holds for two coins with no balance below a 198th of the sum and for three with none below a 75th |
| `Settling.UnsteadyCanSettle` | crates/amm-virtualizer/src/curve.rs:214-259 | the condition is not needed: two equal balances with A = 1 miss it and settle on their sum |
| `Settling.PassStaysAbove` | crates/amm-virtualizer/src/curve.rs:229-249 | no pass lands more than its own floor below the exact D |
| `Settling.PassGainsAtMostOne` | crates/amm-virtualizer/src/curve.rs:229-249 | from the integer root a pass of such a pool gains at most one |
| `Settling.PassClosesDistance` | crates/amm-virtualizer/src/curve.rs:229-249 | above the root a pass leaves at most five eighths of the distance, plus three quarters of a unit |
| `Settling.PassAdvances` | crates/amm-virtualizer/src/curve.rs:229-257 | what one pass does in each position around the integer root: it never falls below, stays on the root and its successor, and moves by two or more from further up |
| `Settling.RoomDoubles` | crates/amm-virtualizer/src/curve.rs:229-229 | two more passes double the distance from which the loop still settles |
| `Stableswap.StepFits` | crates/amm-virtualizer/src/curve.rs:240-245 | one checkable bound on the pool keeps every word of a `get_d` step inside 256 bits |
| `Stableswap.ProductsFit` | crates/amm-virtualizer/src/curve.rs:230-238 | the same bound covers every product of the inner chain |
| `Stableswap.StepAboveRoot` | crates/amm-virtualizer/src/curve.rs:300-321 | after any pass of the `get_y` loop, (y+1)^2 + B(y+1) > c; if the pass moved by at most one, also y^2 + B y <= c + 1 |
| `Stableswap.StepKeepsSlope` | crates/amm-virtualizer/src/curve.rs:300-321 | a pass that moves by more than one stays where the denominator is positive, so the loop never takes its failing exit from there |
| `Stableswap.StepHalvesDistance` | crates/amm-virtualizer/src/curve.rs:300-321 | each pass at least halves the distance to one above the root and never falls below the root |
| `Stableswap.SolveFindsRoot` | crates/amm-virtualizer/src/curve.rs:300-323 | the `get_y` loop always settles within its 255 passes, on the floor of the root or one above it |
| `Stableswap.RootIsFloorOrNext` | crates/amm-virtualizer/src/curve.rs:300-323 | the settled value is the floor root, or one above it with the equation missed by exactly one |
| `Stableswap.RootNearMonotone` | crates/amm-virtualizer/src/curve.rs:296-323 | a larger linear term and a smaller constant raise the settled root by at most one |
| `Curve.CurvePool.GetD` | crates/amm-virtualizer/src/curve.rs:214-259 | the loop on 256-bit words computes the recurrence with every cut written out, for every input: Some(0) on an empty sum, None on an empty balance or a denominator that wraps to zero |
| `Curve.CurvePool.GetY` | crates/amm-virtualizer/src/curve.rs:263-324 | the loops on 256-bit words, constant and linear term included, are the word recurrence for every input: None on equal or foreign coins, an empty balance, Ann = 0 or a denominator not above zero; `ReserveOnInvariant` says what the value solves |
| `WordSolver.WordDIsD` | crates/amm-virtualizer/src/curve.rs:214-259 | whenever no intermediate of a pass up to the exit reaches 2^256, the words of `get_d` compute the unbounded D, cut to 128 bits |
| `WordSolver.FitsWordD` | crates/amm-virtualizer/src/curve.rs:214-259 | a bound on the balances, evaluated before the call, rules every such wrap out |
| `WordSolver.RootExact` | crates/amm-virtualizer/src/curve.rs:300-323 | whenever no word of a `get_y` pass wraps, the word loop is the unbounded loop |
| `Curve.FitsWordY` | crates/amm-virtualizer/src/curve.rs:263-324 | for a fitting swap the words of `get_y` return the settled root of the exact quadratic |
| `SwapInvariant.ReserveOnInvariant` | crates/amm-virtualizer/src/curve.rs:263-324 | what `get_y` returns for a fitting swap puts the pool back on its invariant: with x and the new reserve in place of the old balances, the exact invariant polynomial at the pool's D is not negative one below that reserve and not positive one above it plus a slack that bounds the floors of the constant |
| `SwapInvariant.ImbalanceFalls` | crates/amm-virtualizer/src/curve.rs:263-324 | that change of sign is the only one: past a reserve that is too large every larger one is |
| `SwapInvariant.NothingInNothingOut` | crates/amm-virtualizer/src/curve.rs:263-324 | paying in nothing on a steady pool returns the coin's own balance, at most eight units above it and ten plus that slack below |
| `Curve.SteadyWordD` | crates/amm-virtualizer/src/curve.rs:212-259 | on a steady pool that fits, the 256-bit solver itself returns the exact real-valued D rounded down or one more |
| `Curve.CurvePool.CalculateSwapOutput` | crates/amm-virtualizer/src/curve.rs:326-341 | the quote on words for every input, and never more than the raw reserve of coin j, whatever wraps; `SwapOutputExact`, `ReserveOnInvariant` and `PayoutShare` say what the quote is worth |
| `Curve.SwapOutputExact` | crates/amm-virtualizer/src/curve.rs:326-341 | for a fitting swap the quote is the payout of the settled root, fee taken and denormalized |
| `Curve.CurvePool.AnnIsPower` | crates/amm-virtualizer/src/curve.rs:224-225 | Ann is A n^n in a 128-bit word |
| `Curve.NewBalanceIsSum` | crates/amm-virtualizer/src/curve.rs:327-329 | the balance paid into is the normalized sum of the reserve and the raw amount, in a 128-bit word |
| `Curve.PayoutShare` | crates/amm-virtualizer/src/curve.rs:332-337 | what is paid is the drop of the other balance less the fee's share, in that coin's own units, rounded by less than one unit of either |
| `Curve.ReserveNearMonotone` | crates/amm-virtualizer/src/curve.rs:263-324 | for the same balances, paying in more never raises the new reserve of the other coin by more than one |
| `Curve.PayoutNearMonotone` | crates/amm-virtualizer/src/curve.rs:326-341 | so offering more never lowers the amount paid out by more than one unit, at any fee |
| `Curve.EverydaySwapFits` | crates/amm-virtualizer/src/curve.rs:263-341 | every swap paying into a two or three coin pool of up to 10^30 normalized units, Ann up to 10^6 and no balance below a thousandth of the sum satisfies the no-overflow bounds, so the exact results above apply to it |
| `Curve.EverydayPayout` | crates/amm-virtualizer/src/curve.rs:326-341 | near-monotonicity of the payout for all such pools and all fees, with no further condition |
| `Curve.Close` | crates/amm-virtualizer/src/curve.rs:250-257 | the two-branch convergence test says exactly that two 256-bit iterates differ by at most one |
| `Curve.NewtonRoot` | crates/amm-virtualizer/src/curve.rs:300-323 | the loop on 256-bit words ends on what the word recurrence ends on, for any constants and any number of passes |
| `SpscRing.FifoUnderInterleaving` | crates/core-engine/src/lib.rs:96-146 | under every interleaving of single loads, slot accesses and stores: popped items followed by buffered items are the pushed items in order, 0 <= head - tail <= N, both cached cursors at or below the real ones |
| `SpscRing.NoSharedSlot` | crates/core-engine/src/lib.rs:96-146 | no reachable state has both threads at one slot, and the consumer never meets a half-written one |
| `SpscRing.RefusedPushMetFull` | crates/core-engine/src/lib.rs:99-110 | whatever the consumer does between a push's reload of the tail and its decision, the push is refused if and only if the ring was full when the tail was loaded |
| `SpscRing.RefusedPopMetEmpty` | crates/core-engine/src/lib.rs:128-137 | whatever the producer does between a pop's reload of the head and its decision, the pop is refused if and only if the ring was empty when the head was loaded |
| `SpscRing.PushAloneIsEnqueue` | crates/core-engine/src/lib.rs:96-121 | a push nothing interrupts takes at most seven steps and is the bounded FIFO's push |
| `SpscRing.PopAloneIsDequeue` | crates/core-engine/src/lib.rs:125-146 | a pop nothing interrupts takes the oldest item, or nothing from an empty ring |
| `RingIndex.DistinctSlots` | crates/core-engine/src/lib.rs:114-115 | masked cursors less than a lap apart use different slots |
| `ConsumerQueue.IsolatedConsumerQueue.PushWithPolicy` | crates/core-engine/src/simulator.rs:205-266 | refines a bounded FIFO: append, drop the new item, or drop the front then append; every counter accounted for |
| `ConsumerQueue.IsolatedConsumerQueue.TryPop` | crates/core-engine/src/simulator.rs:269-289 | takes the front, None exactly when empty |
| `ConsumerQueue.IsolatedConsumerQueue.Len` | crates/core-engine/src/simulator.rs:299-304 | the length is enqueued minus consumed |
| `ConsumerQueue.RunConserves` | crates/core-engine/src/simulator.rs:205-289 | over any mix of pops and both policies every accepted item leaves exactly once and in order, consumed or evicted; only DropNewest refuses |
| `ConsumerQueue.LaggardSeesNewest` | crates/core-engine/src/simulator.rs:240-262 | with DropOldest and no consumer the queue holds the newest items, as many as fit |
| `TokenBucket.LockFreeTokenBucket.TryConsume` | crates/distribution/src/lib.rs:130-172 | however other threads store between the load and the swaps, the call decides and stores by one consistent word, and refuses exactly when that word has too few tokens |
| `TokenBucket.GrantedIff` | crates/distribution/src/lib.rs:130-172 | inside the machine words a call is granted if and only if its tokens are at most min(capacity, stored + rate x time since the stored reading / 1000), and the word keeps the rest |
| `TokenBucket.CreditedTime` | crates/distribution/src/lib.rs:141-155 | a granted call that fills the bucket credits all the time up to its reading, any other what its earned tokens cost to the millisecond |
| `TokenBucket.RunEarns` | crates/distribution/src/lib.rs:130-172 | over every interleaving in which the bucket does not fill, granted plus stored tokens grow by at least rate times the time the word moved on: no credited time is lost, whatever the rate |
| `TokenBucket.RefusedOnlyAtLimit` | crates/distribution/src/lib.rs:130-172 | after such a run a call within the capacity is refused only if granting it would exceed the initial tokens plus rate times the elapsed time |
| `TokenBucket.RunKeepsWord` | crates/distribution/src/lib.rs:130-172 | for every rate and capacity and every run of concurrent attempts, stored tokens never exceed the capacity and, until a clock leaves the 40-bit field, the stored time never goes back nor past the largest time supplied |
| `TokenBucket.FaithfulIsRateBounded` | crates/distribution/src/lib.rs:130-172 | total tokens granted by any interleaving are at most capacity + rate x (latest time - start) / 1000 for the configurations named in `Faithful`, while clocks fit 40 bits and the time since the start earns less than 2^32 tokens |
| `TokenBucket.RateBoundedIffFaithful` | crates/distribution/src/lib.rs:137-156 | the bound holds if and only if the rate is zero, divides 1000, is a multiple of 1000, or the capacity is at most max(1, rate / 1000): for every other configuration a run breaks it |
| `TokenBucket.DrainedAgainIff` | crates/distribution/src/lib.rs:119-172 | from 2^40 ms on the stored time reads back as now modulo 2^40: a bucket just drained can be drained again at the same instant if and only if the refill for the difference, cut to 32 bits, reaches the capacity |
| `TokenBucket.DrainsAtOneInstant` | crates/distribution/src/lib.rs:119-172 | then k further calls at that one instant are granted k times the capacity, and otherwise nothing |
| `ShmRing.ElasticShmRing.PublishBbo` | crates/distribution/src/shm.rs:302-326 | appends one message whose every field is the quote's to the published ones and keeps the newest `capacity` of them in their slots under their own sequence numbers |
| `ShmRing.ElasticShmRing.PublishTrade` | crates/distribution/src/shm.rs:329-352 | the same for trades |
| `ShmRing.ElasticShmRing.TryRead` | crates/distribution/src/shm.rs:356-386 | an Ok read is the published message at the cursor; Empty and Overrun are decided by the cursors alone, so the sequence mismatch branch is never taken between whole calls |
| `ShmRing.EveryMessageReadOrReported` | crates/distribution/src/shm.rs:356-386 | a reader's cursor advance always equals its Ok reads plus the sum of reported misses, and Ok reads are published messages in order |
| `ShmRing.ReaderCatchesUp` | crates/distribution/src/shm.rs:356-386 | left alone, a reader at any lag reaches the head within capacity + 1 reads |
| `KernelBypass.DmaBufferPool.AllocateDescriptor` | crates/core-engine/src/kernel_bypass.rs:192-198 | pops the free stack, None exactly when it is empty |
| `KernelBypass.DmaBufferPool.ReleaseDescriptor` | crates/core-engine/src/kernel_bypass.rs:201-206 | pushes the free stack, ignored when it is full |
| `KernelBypass.KernelBypassBridge.RefillRxRing` | crates/core-engine/src/kernel_bypass.rs:254-277 | posts every free buffer behind the window, keeping all ids in stack and window pairwise distinct |
| `KernelBypass.KernelBypassBridge.InjectPacket` | crates/core-engine/src/kernel_bypass.rs:280-306 | appends the frame, its first 2048 bytes at most, to the backlog, or refuses exactly when every posted buffer is filled; no other frame is disturbed |
| `KernelBypass.KernelBypassBridge.PollRxBurst` | crates/core-engine/src/kernel_bypass.rs:311-362 | delivers the oldest frames with their bytes and timestamps, keeps the rest in order, and counts them |
| `KernelBypass.RunDeliversInOrder` | crates/core-engine/src/kernel_bypass.rs:280-362 | over every run each accepted frame is delivered exactly once and in arrival order; the ring is never left without a buffer |
| `KernelBypass.CirculationIsLeastBacklog` | crates/core-engine/src/kernel_bypass.rs:345-359 | the buffers still in circulation are exactly the smallest backlog any delivering poll found |
| `KernelBypass.KeepsBuffersIffPolledFull` | crates/core-engine/src/kernel_bypass.rs:345-359 | all buffers stay in circulation if and only if every delivering poll finds the ring full |
| `KernelBypass.OneFrameThenPoll` | crates/core-engine/src/kernel_bypass.rs:345-359 | one frame and one poll leave a single buffer, whatever the pool size |
| `FeedSession.Session.OnMessage` | crates/live-feed/src/session.rs:152-177 | products, statistics, emitted events and returned action are those of the per-product rules, for every kind of message; the `FeedEvents` rows say what those rules mean for the stream |
| `FeedSession.Session.OnTicker` | crates/live-feed/src/session.rs:194-246 | the ticker path: lookup, parse failure, both checks with the expected id wrapping at 2^64, baseline, deduplicated trade |
| `FeedSession.Session.OnHeartbeat` | crates/live-feed/src/session.rs:248-275 | the heartbeat path: a regression leaves the baseline, a heartbeat before the baseline is ignored |
| `FeedSession.Session.OnTick` | crates/live-feed/src/session.rs:142-148 | the watchdog fires exactly when the silence exceeds its limit |
| `FeedSession.Session.NoteActionTaken` | crates/live-feed/src/session.rs:132-138 | counts the action and clears every baseline |
| `FeedSession.QuietIffClean` | crates/live-feed/src/session.rs:118-138 | between two resets no call asks for an action if and only if no error message arrived and, for every product, sequences strictly increase from its first ticker on, ticker trade ids are consecutive and no heartbeat is ahead of the last ticker |
| `FeedSession.CalmIffClean` | crates/live-feed/src/session.rs:209-232 | the same for one product's stream of tickers and heartbeats |
| `FeedSession.EmittedTradesIncrease` | crates/live-feed/src/session.rs:234-245 | over a whole run, resets included, the trades emitted for a product are exactly the accepted ids that beat every earlier one, so they strictly increase |
| `FeedEvents.EmittedQuotesAreHeard` | crates/live-feed/src/session.rs:194-246 | over a whole run, resets and actions included, the quotes emitted for a product are its tickers in order, one for each, every field the parsed one but the market, which is the product's, and the receive time, which is the step's |
| `FeedEvents.EmittedTradesAreFresh` | crates/live-feed/src/session.rs:234-245 | the trades emitted for it are, field by field, those of the tickers whose id beats every earlier one |
| `FeedEvents.HeardAreReadings` | crates/live-feed/src/session.rs:179-194 | those tickers are the ones among the product's well-formed messages |
| `FeedEvents.VerdictIsDeserved` | crates/live-feed/src/session.rs:204-275 | between two resets, whatever was complained of before, every well-formed message gets the action its stream deserves: a regression naming the highest sequence since the newest ticker, a gap naming the id after that ticker's, a heartbeat ahead naming both ids, or none |
| `FeedSession.ProductIsolation` | crates/live-feed/src/session.rs:179-276 | for distinct names, a product's events, actions and baseline in any interleaved stream are those of a session holding that product alone, fed its own messages and the common resets |
| `FeedSession.CountersBalance` | crates/live-feed/src/session.rs:57-70 | the event counter is the length of the output and the three failure counters add up to the resubscriptions asked for |
| `FeedEvents.FailuresCounted` | crates/live-feed/src/session.rs:57-70 | each failure counter is the number of calls that named its reason |
| `FeedEvents.FramesCounted` | crates/live-feed/src/session.rs:152-194 | every frame is counted, by kind and by what made it unusable: unreadable, nameless, foreign, or a ticker without its fields |
| `ClientBitmap.ClearLowestBit` | crates/distribution/src/bitmap.rs:121-121 | `w & (w - 1)` removes exactly the lowest set bit |
| `ClientBitmap.ElementsExact` | crates/distribution/src/bitmap.rs:114-124 | the enumeration visits exactly the set bits, strictly ascending |
| `ClientBitmap.ClientBitmap.Insert` | crates/distribution/src/bitmap.rs:33-46 | adds exactly that id; an id at or beyond 1024 is silently not stored |
| `ClientBitmap.ClientBitmap.Remove` | crates/distribution/src/bitmap.rs:49-62 | removes exactly that id |
| `ClientBitmap.ClientBitmap.Contains` | crates/distribution/src/bitmap.rs:65-75 | membership |
| `ClientBitmap.ClientBitmap.IsEmpty` | crates/distribution/src/bitmap.rs:78-80 | empty exactly when no id is a member |
| `ClientBitmap.ClientBitmap.Union` | crates/distribution/src/bitmap.rs:104-110 | the members of either bitmap |
| `ClientBitmap.ClientBitmap.ForEach` | crates/distribution/src/bitmap.rs:114-124 | passes the enumeration to the callback in order |
| `ClientBitmap.ClientBitmapIter.Next` | crates/distribution/src/bitmap.rs:146-160 | yields the same enumeration one id at a time, and None from its end on |
| `Router.KeysAgree` | crates/distribution/src/lib.rs:57-63 | two topic keys agree if and only if venue, stream and the low 24 bits of market and flags agree |
| `Router.KeyIsSum` | crates/distribution/src/lib.rs:57-63 | the packed word is venue x 2^56 + (market mod 2^24) x 2^32 + stream x 2^24 + (flags mod 2^24) |
| `Router.InvertedTopicRouter.RegisterClient` | crates/distribution/src/router.rs:60-71 | refuses a known id, otherwise adds the session; subscriptions untouched |
| `Router.InvertedTopicRouter.UnregisterClient` | crates/distribution/src/router.rs:74-92 | removes the client and all its subscriptions from the index, and drops topics left empty |
| `Router.InvertedTopicRouter.Subscribe` | crates/distribution/src/router.rs:95-108 | a registered client becomes Subscribed and gains that one subscription; index and relation stay in agreement |
| `Router.InvertedTopicRouter.Unsubscribe` | crates/distribution/src/router.rs:111-117 | removes that one subscription and never fails |
| `Router.InvertedTopicRouter.DispatchBbo` | crates/distribution/src/router.rs:148-255 | matches exactly the subscribers of the exact or the default topic below id 1024; sink, counters and every session follow from each client's own outcome, and what a JSON client receives reads back as the quote |
| `Router.InvertedTopicRouter.DispatchTrade` | crates/distribution/src/router.rs:258-352 | the same for trades on the flagless topic, with IEEE comparison of the notional: not-a-number on either side filters out |
| `Router.InvertedTopicRouter.Visit` | crates/distribution/src/router.rs:194-251 | one client: filter, then limiter, then delivery in its own protocol |
| `Router.SessionIsPaced` | crates/distribution/src/session.rs:122-128 | over any sequence of events a session with faithful limits is sent at most capacity + rate x elapsed / 1000 messages |
| `Router.SessionIsAccounted` | crates/distribution/src/session.rs:121-134 | over any sequence of events a session's counters are its history: messages and bytes sent, and every event sent, filtered out or refused exactly once |
| `Router.SunkExactly` | crates/distribution/src/router.rs:194-255 | the sink sees ascending ids, each at most once, and exactly the matched clients that pass filter and limiter, with their own protocol's payload |
| `Router.MatchedIsAccounted` | crates/distribution/src/router.rs:194-255 | matched = delivered + filtered + rate limited |
| `Router.ReceivesIffEntitled` | crates/distribution/src/router.rs:148-255 | a client receives the event if and only if its id is below 1024, it subscribes to one of the two topics, the spread is unlimited or within its limit or the notional at least its threshold, and its bucket grants one token |
| `Router.JsonReadsBack` | crates/distribution/src/router.rs:193-246 | every text the sink receives for a JSON client reads back as the event's own record |
| `Router.LazyJson.Get` | crates/distribution/src/router.rs:193-246 | the JSON text is serialized once and always fits its 512 bytes, so no JSON client is skipped |
| `DecimalText.NumberOfDecimal` | crates/distribution/src/fast_json.rs:82-111 | the shortest numeral of a value denotes it |
| `FastJson.FastJsonWriter.WriteU64` | crates/distribution/src/fast_json.rs:82-111 | two digits per table lookup emit the value's decimal numeral, or an error when it does not fit |
| `FastJson.FastJsonWriter.Digits` | crates/distribution/src/fast_json.rs:83-110 | the scratch-buffer loop produces the decimal numeral of every 64-bit value |
| `FastJson.TableCell` | crates/distribution/src/fast_json.rs:14-24 | the lookup table holds both decimal digits of every number below 100 |
| `FastJson.FastJsonWriter.WriteI64` | crates/distribution/src/fast_json.rs:114-121 | sign and magnitude, the smallest value included |
| `FastJson.FastJsonWriter.WriteFixedPoint8` | crates/distribution/src/fast_json.rs:125-153 | sign, whole part, point and eight zero-padded decimals, or an error after at most a prefix |
| `FastJson.FractionDigits` | crates/distribution/src/fast_json.rs:136-150 | the fraction loop zero-pads, and its odd-digit step never applies |
| `FastJson.BboJsonFits` | crates/distribution/src/fast_json.rs:158-202 | no quote record serializes to more than 382 bytes |
| `FastJson.TradeJsonFits` | crates/distribution/src/fast_json.rs:206-250 | no trade record serializes to more than 346 bytes |
| `FastJson.SerializeBboJson` | crates/distribution/src/fast_json.rs:158-202 | writes the record's text when it fits and fails exactly when it does not; `BboReadsBack` says what the text means |
| `FastJson.SerializeTradeJson` | crates/distribution/src/fast_json.rs:206-250 | the same for trades |
| `JsonRoundTrip.BboReadsBack` | crates/distribution/src/fast_json.rs:158-202 | a JSON reader written on its own parses the text as one object and finds under each documented key the value of that field: integers, prices and quantities in all 64 bits, every field of every quote |
| `JsonRoundTrip.TradeReadsBack` | crates/distribution/src/fast_json.rs:206-250 | the same for every trade record |
| `FastJson.QuantityRoundTrip` | crates/distribution/src/fast_json.rs:177-177 | an unsigned quantity printed through its signed cast is recovered in all 64 bits by parsing and casting back |
| `FixedPoint.ParseFixedPoint8` | crates/core-engine/src/lib.rs:322-365 | the loops compute the scan and rescale of the text, for every byte string |
| `FixedPoint.ParsesNumeral` | crates/core-engine/src/lib.rs:322-365 | a numeral with at most eight decimals parses to its value times 10^8, wrapped to 64 bits |
| `FixedPoint.ParsesLongNumeral` | crates/core-engine/src/lib.rs:322-365 | with more decimals: the digits wrapped to 64 bits, then the extra decimals cut off toward zero; for digits that fit that is the numeral cut at eight decimals |
| `FixedPoint.RoundTrip` | crates/core-engine/src/lib.rs:322-365 | parsing what the printer emits gives the value back, for every 64-bit value |
| `FixedPoint.OnlyMinimumOverflows` | crates/core-engine/src/lib.rs:336-343 | the parser's accumulator leaves the 64-bit range on printed text if and only if the value is the smallest one |
| `OrderBook.UpdateKeepsBestIff` | crates/core-engine/src/lib.rs:218-293 | from a correct cached best index an update leaves it correct if and only if it neither rewrites the live best slot to a price behind another live level, nor empties the best slot and leaves live levels none of which the rescan can see, the best of them outside slot 0 |
| `OrderBook.BboIsFullScan` | crates/core-engine/src/lib.rs:218-313 | after any run of updates on tick-aligned prices at or above a non-negative base, the best bid or ask is what a scan of the last reported quantities gives, None exactly when nothing is live, with every field of the level as last reported |
| `OrderBook.MirrorPricesShareSlot` | crates/core-engine/src/lib.rs:219-226 | two aligned prices share a slot if and only if they are equal or mirror each other about the base |
| `OrderBook.StraddlingFoolsCache` | crates/core-engine/src/lib.rs:218-241 | three bids straddling the base after which the cached best is not the best |
| `OrderBook.UnseenBidFoolsCache` | crates/core-engine/src/lib.rs:218-281 | three bids, no two in one slot, after which the cached best is wrong: the rescan does not see a bid at price 0 |
| `OrderBook.ContiguousOrderBook.UpdateBid` | crates/core-engine/src/lib.rs:218-241 | the bid side and its cached index after any update, wrapped distances included |
| `OrderBook.ContiguousOrderBook.UpdateAsk` | crates/core-engine/src/lib.rs:244-267 | the ask side likewise |
| `OrderBook.RescanIsBestIff` | crates/core-engine/src/lib.rs:270-293 | a rescan finds the best live level if and only if it can see one, none is live, or the best is in slot 0 |
| `CivilDate.DaysFromCivilIsCounted` | crates/cefi-ingest/src/lib.rs:388-396 | the era formula equals the count of year and month lengths, for every year from 0 and every day number |
| `CivilDate.NextDayIsOneMore` | crates/cefi-ingest/src/lib.rs:388-396 | the next calendar day is exactly one more |
| `CivilDate.OrderPreserved` | crates/cefi-ingest/src/lib.rs:388-396 | day counts order dates as the calendar does |
| `CivilDate.RollsOver` | crates/cefi-ingest/src/lib.rs:363-365 | a day number past its month's end, which is accepted, counts into the next month |
| `CivilDate.ParseIso8601UtcNs` | crates/cefi-ingest/src/lib.rs:337-402 | the method is the field-by-field reading for every text: punctuation, digits, ranges, fraction padding, dates before 1970; the `DateText` rows say what it reads |
| `DateText.PrintedIsParsed` | crates/cefi-ingest/src/lib.rs:337-402 | every timestamp in range with a four-digit year and a day from 1970 on, printed as padded fields with or without a fraction of any length and with any text after the Z, parses to its nanoseconds modulo 2^64 |
| `DateText.AcceptedIsPrinted` | crates/cefi-ingest/src/lib.rs:337-402 | and a text is accepted only if it is such a text |
| `CivilDate.ParseFraction` | crates/cefi-ingest/src/lib.rs:366-385 | nine fraction digits count, further ones must be digits, fewer are padded |
| `CivilDate.NanosecondsOrder` | crates/cefi-ingest/src/lib.rs:400-401 | on real dates the nanosecond count orders timestamps as calendar and clock do |
| `CivilDate.ExactUntil2554` | crates/cefi-ingest/src/lib.rs:400-401 | the count fits its 64-bit word if and only if counted day and clock are before 2554-07-21T23:34:33.709551616Z, for every stamp the parser accepts, leap seconds and rolled-over days included |
| `CivilDate.ParsedExactIff` | crates/cefi-ingest/src/lib.rs:337-402 | so the number returned for an accepted text is its exact timestamp if and only if that date is before the limit |
| `VirtualBook.IntegerSqrt` | crates/amm-virtualizer/src/lib.rs:221-235 | r^2 <= n < (r+1)^2 for every n |
| `VirtualBook.SpotBrackets` | crates/amm-virtualizer/src/lib.rs:45-62 | the spot price is the ratio of the reserves in whole tokens at 10^8, rounded down, whichever coin has more decimals, while its words hold their values |
| `VirtualBook.BandBrackets` | crates/amm-virtualizer/src/lib.rs:77-98 | a band's ask and bid lie that many basis points from spot, rounded toward it |
| `VirtualBook.QuantityBrackets` | crates/amm-virtualizer/src/lib.rs:89-91 | a published quantity is the amount of base in whole tokens at 10^8, rounded down |
| `VirtualBook.NeverAboveCurve` | crates/amm-virtualizer/src/lib.rs:83-85 | target_base^2 x target_price <= reserve_base^2 x spot |
| `VirtualBook.CloseToCurve` | crates/amm-virtualizer/src/lib.rs:83-85 | and target_base is short of the curve only by rounding |
| `VirtualBook.AskOnCurve` | crates/amm-virtualizer/src/lib.rs:77-94 | an ask band leaves no more than the reserve, on or below the curve, and publishes the difference |
| `VirtualBook.BidOnCurve` | crates/amm-virtualizer/src/lib.rs:99-113 | a bid band stays on or below the curve and publishes the difference, exactly when it adds base |
| `VirtualBook.AskDepthMonotone` | crates/amm-virtualizer/src/lib.rs:77-94 | a wider band asks at a price at least as high for at least as much |
| `VirtualBook.BidDepthMonotone` | crates/amm-virtualizer/src/lib.rs:99-113 | a wider band bids at a price at most as high for at least as much |
| `VirtualBook.UniswapV2Pool.PopulateVirtualOrderBook` | crates/amm-virtualizer/src/lib.rs:64-116 | both sides of the book after all bands are the published levels applied in order; nothing changes without a positive spot price |

## Left out

- Settling.SteadySettles: a sufficient condition only, with a sum of at least 40 units. Outside it the loop's fate turns on the remainders of its own divisions, so the exact condition is the run itself (`NewtonCanCycle`, `UnsteadyCanSettle`).
- Curve.SwapOutputExact: the exact payout is stated for swaps that satisfy `SwapFits` (D below 2^126, the first step below 2^127, the constant below 2^254) and a fee product below 2^128; beyond them the quote is the word recurrence of `CalculateSwapOutput`.
- SwapInvariant.ReserveOnInvariant: stated for swaps that satisfy `SwapFits`, with a slack of one unit more than what the floors of the constant can lose over Ann n and the reserve (`Slack`); beyond those bounds `get_y` is the word recurrence of `GetY`.
- SwapInvariant.NothingInNothingOut: for pools on which `get_d` settles (`Steady`), because the reserve is judged against the D the pool computes.
- TokenBucket.RunEarns: for runs in which no store fills the bucket, whose overflow is meant to be lost, and clocks below 2^40 ms.
- VirtualBook.SpotBrackets: stated where the price's own products stay inside their words (`SpotFits`).
- JsonRoundTrip.BboReadsBack: the reader takes JSON objects of plain strings, integers and literals as the printer writes them, without white space, escapes or arrays.
- TokenBucket.FaithfulIsRateBounded: clock readings stay below 2^40 ms and, for rates above 1000 per second, the time since the bucket's start earns less than 2^32 tokens, where the 32-bit refill count is cut; `DrainedAgainIff` and `DrainsAtOneInstant` say what happens past the first limit.
- SpscRing.FifoUnderInterleaving: atomics are sequentially consistent steps and cursors do not wrap at 2^64; acquire and release orderings are not modelled.
- ShmRing.ElasticShmRing.TryRead: calls are taken whole, as the writer's exclusive reference demands within one process; a reader in another process overlapping a publish is not modelled.
- ConsumerQueue.IsolatedConsumerQueue.PushWithPolicy: calls are taken whole; the eviction path stores to the consumer's cursor and is not analysed under interleaving.
- OrderBook.BboIsFullScan: asks at the largest 64-bit price are excluded, because a rescan cannot see them; a bid at price 0 outside slot 0 is as invisible, and off the grid (`UnseenBidFoolsCache`).
- VirtualBook.BidDepthMonotone: stated where the band's own product and quantity stay inside their words.
- Router.InvertedTopicRouter.DispatchBbo: the locks of the two maps, lock poisoning and calls that overlap are not modelled; the sink closure is the returned list of deliveries.
- The binary (SBE) encoder is fixed-offset byte copying; the router model takes its frame, of the encoder's length, as given.
- Bitmap intersection, count and clear: used by no modelled operation.
- DMA addresses and buffer ids inside descriptors: set once and never read back.
- The shared-memory backends, mapping files, writer liveness and the fixed-size twin of the ring, which repeats the same code.
- Parsing of venue messages by substring search: the session model starts from extracted fields.
- Sockets, TLS, the runner, clocks, health probes, wait strategies, CPU pinning and topology.
- The feed generator and its random numbers, the v3, v4 and Curve ladder synthesis, and direct writes to book levels that bypass the cached index.
- The C++ and Python clients, deployment, the website.
