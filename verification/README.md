# Timer stores, verified

The repository holds several timer stores that must all behave like one simple thing: a clock and a
map from timer to deadline, where moving the clock removes exactly the deadlines that have come due.
This project states that thing once (`TimerBag`) and proves that the clever stores do it.

- `TimerBag`, `Differential`: the bag of deadlines; five stores driven through any schedule of
  starts, stops, ticks and advances show the same results, because each refines the bag.
- `Words`, `Bitops`: unsigned words and their bits; the halving bit scans against the loops.
- `WheelBits`, `TickWheel`, `WheelStore`: the tickless hierarchical wheel, its mask arithmetic, its
  methods on slot lists and occupancy masks, and its adapter by id. Four wheels of 64 slots, the
  defaults of `timeout.c`.
- `Lists`, `LawnView`, `Lawn2`, `LawnStore`: the lawn as linked nodes and buckets in a probed table,
  the value it stands for, and its adapter by id.
- `Granules`: what a level of a wheel sees of the clock, shared by the exact and the kernel wheel and
  the clamp.
- `Slots`, `NaiveRing`, `WheelExact`: slot arrays with inverse metadata; the growing ring and the
  cascading wheel on top, both of which fire a slot without reading a deadline.
- `Heap`: the indexed binary heap.
- `ClampedLawn`: the rounding of ttls and the bound on the lawn's table that follows.
- `KernelWheel`, `KernelBase`: the non-cascading kernel wheel, its lateness, and the NOHZ skipping
  loop against single ticks. `LVL_DEPTH` is 9 (HZ above 100).
- `KernelLock`: the kernel's lock, migrate and delete protocol as a state machine of CPUs whose
  every visible memory access is a step of its own.

Objects that the C code updates in place are classes, their loops methods with invariants; each
method is tied to a value (`View()`) whose properties are lemmas. Words of 64 bits are natural
numbers; wrap-around is written out in `timeout.c`'s arithmetic, in the bit scans and in
`clamp_timer_ttl`. Elsewhere a precondition says that the clock plus the ttl fits.

What callers must grant is stated as `requires`: an id or node is not live when started, the clock
never goes backwards, `now + ttl` fits 64 bits, an expiry is within reach of the exact wheel, and an
advance of the ring, which only sets the clock, stays below every clock at which a timer is fired. The
schedules of the differential gate ask besides for a ttl of at least 1 and for advances below every
deadline, as the tests do. Each store's own run asks only for what that store needs: the heap for
neither, the tickless wheel only for the advances, the ring for both but not for reach, and the lawn for
neither, while it also takes jumps.

Some promises fail on some inputs; each is proved with its exact condition:

- A periodic timer is re-added at its next firing if and only if that fits 64 bits (`ReaddExact`,
  with a failing input in `ReaddWraps`).
- The ring and the exact wheel fire a slot without reading deadlines. Their ticks fire what is due, and
  a timer started with ttl 0 exactly one turn of the slots late (`Ring.Tick`, `ExactWheel.Tick`,
  `FiresThen`).
- The exact wheel reaches 64 units of its top level from the unit of the clock:
  `(expire >> 42) - (now >> 42) <= 64`. Within that, and only within, a timer is placed right and no
  drain gets stuck on it (`ReachExactly`, with inputs on both sides in `ReachExamples`). A ttl below
  2^48 is always within reach.
- The tickless wheel wakes its caller at the start of the unit in which some deadline lies, except that a
  deadline more than a turn of the last wheel away makes it wake whole turns earlier (`WakeAtIs`, with such
  an input in `WakeFar`).
- On the kernel wheel's last level a timer is on time if and only if its absolute expiry is below the
  cutoff or falls into one bucket (`LastLevel`); `LastLevelEarly` names an expiry looked at
  132120576 ticks early.
- `clamp_timer_ttl` rounds up as long as the ttl is at most 2^64 - 2^24, and gives 0 beyond.
- `mod_timer` decides before it has the lock that the timer is pending. If the timer fires in between
  and the new bucket has the old one's index, it returns 1 and the timer stays off every list
  (`ModDecides` says exactly when; `LostRestart` gives, for every timer of levels 0 to 7, a run and an
  expiry whose index by `calc_wheel_index` is the old one).

The code and its comments disagree in two places. `src/lawn2.c:7-8` says that a grow rehashes
emptied buckets out; `grow` (`src/lawn2.c:103-112`) moves every used slot, so they stay, and `Grow`
says so. The comment at `linux_kern_timer.c:521-524` speaks of large timeouts, but the test below it
compares the absolute expiry, as described above.

## Model

| member | source | states |
|---|---|---|
| `Differential.Agree` | src/benchmarks/c/test.c:43-67 | five stores put through any fair schedule of starts, stops, ticks and advances show the same results and sizes at every call |
| `Differential.HeapRun` | src/benchmarks/c/impl/heap.c:63-109 | the heap's run, with any ttl and any forward advance, shows the bag's trace and ends in the bag's state |
| `Differential.RingRun` | src/benchmarks/c/impl/naive.c:86-126 | the ring's run, with any ttls of at least 1 and advances that pass no deadline, shows the bag's trace and ends in the bag's state |
| `Differential.ExactRun` | src/benchmarks/c/impl/wheel_exact.c:100-154 | the exact wheel's fair run shows the bag's trace, ends in the bag's state, and its cascades moved timers at most 7 times per start |
| `Differential.WheelRun` | src/benchmarks/c/impl/wahern.c:44-96 | the tickless wheel's run, with any ttls, 0 included, and advances that pass no deadline, shows the bag's trace and ends in the bag's state |
| `Differential.LawnRun` | src/lawn2.c:136-239 | in every run of add, delete, tick, advance to any target and clock set forward, the lawn shows the bag's trace and ends in the bag's state |
| `Differential.FiresOnDeadline` | src/benchmarks/c/test.c:69-96 | in a run with ttls of at least 1 a tick fires a timer if and only if it reaches that timer's deadline exactly |
| `TimerBag.AdvanceIsTicks` | src/benchmarks/c/test.c:112-162 | a jump of the clock leaves what ticking up to it leaves, from any bag whose deadlines are ahead |
| `Differential.AdvanceMatchesTicks` | src/benchmarks/c/test.c:98-162 | in such a run an advance leaves exactly what ticking up to its target leaves, and none of those ticks would fire anything |
| `TimerBag.FiredExactly` | src/benchmarks/c/cts.h:11-22 | what a tick fires is what falls due exactly then, if nothing was overdue |
| `TimerBag.LateIsTick` | src/benchmarks/c/impl/naive.c:111-120 | firing a slot unseen fires what the bag fires, as long as every deadline is ahead |
| `TimerBag.LateIsAdvance` | src/benchmarks/c/impl/wheel_exact.c:152-154 | ticking so up to a clock is the bag's jump to it |
| `TimerBag.FiresThen` | src/benchmarks/c/impl/naive.c:60-120 | under such ticks a timer leaves on its deadline if that is ahead, and one started with ttl 0 exactly one turn of the slots late |
| `Granules.DownTick` | src/benchmarks/c/impl/wheel_exact.c:116-123 | the unit a level sees changes exactly on the ticks that reach a multiple of its granule |
| `Granules.AlignedIs` | src/benchmarks/c/impl/wheel_exact.c:120-121 | the low bits of the clock are 0 exactly on the multiples of the granule |
| `Bitops.Clz64` | article/src/c/wheel/timeout-bitops.c:76-91 | the halving search counts the leading zeros of any 64-bit word that is not 0 |
| `Bitops.Clz32` | article/src/c/wheel/timeout-bitops.c:93-103 | the same for 32 bits |
| `Bitops.Ctz64` | article/src/c/wheel/timeout-bitops.c:112-123 | the halving search counts the trailing zeros of any 64-bit word that is not 0 |
| `Bitops.Ctz32` | article/src/c/wheel/timeout-bitops.c:126-136 | the same for 32 bits |
| `Bitops.NaiveClz` | article/src/c/wheel/timeout-bitops.c:158-169 | the bit-by-bit loop counts the same leading zeros, and all bits for 0 |
| `Bitops.NaiveCtz` | article/src/c/wheel/timeout-bitops.c:171-184 | the bit-by-bit loop counts the same trailing zeros |
| `Bitops.ClzIsTopBit` | article/src/c/wheel/timeout-bitops.c:158-169 | the leading-zero count locates the highest set bit |
| `Bitops.CtzIsLowBit` | article/src/c/wheel/timeout-bitops.c:171-184 | the trailing-zero count locates the lowest set bit |
| `Bitops.ClzStep` | article/src/c/wheel/timeout-bitops.c:76-91 | one halving step: shifting by k and counting k keeps the answer |
| `Bitops.CtzStep` | article/src/c/wheel/timeout-bitops.c:112-123 | one halving step downwards keeps the answer |
| `Bitops.Check` | article/src/c/wheel/timeout-bitops.c:187-219 | the four comparisons of fast and naive routines succeed for every word, not only for the listed test cases |
| `WheelBits.WheelOfRemainder` | article/src/c/wheel/timeout.c:313-316 | the chosen wheel w satisfies 64^w <= min(rem, TIMEOUT_MAX) < 64^(w+1) |
| `WheelBits.TimeoutSlotIs` | article/src/c/wheel/timeout.c:319-321 | the shifted, masked slot is the unit, modulo 64, in which the timer must be looked at: the deadline's own on wheel 0, the one before it above |
| `WheelBits.RotLBit` | article/src/c/wheel/timeout.c:184-190 | bit i of a left rotation |
| `WheelBits.RotRBit` | article/src/c/wheel/timeout.c:192-198 | bit i of a right rotation |
| `WheelBits.MaskBit` | article/src/c/wheel/timeout.c:388-444 | a slot is in the mask of an update if and only if it is within the elapsed units of the old or the new slot, or is the new one |
| `WheelBits.MaskCovers` | article/src/c/wheel/timeout.c:388-444 | every unit between the old and the new clock of a wheel is in its mask |
| `WheelBits.SchedulePlaces` | article/src/c/wheel/timeout.c:324-353 | scheduling puts a timer where the placement invariant wants it, on the wheel whose unit is not longer than the remaining time while the next wheel's is |
| `WheelBits.StaysPlaced` | article/src/c/wheel/timeout.c:388-444 | a timer whose slot is not in the mask is still well placed at the new clock |
| `WheelBits.NoCarry` | article/src/c/wheel/timeout.c:436-444 | if bit 0 of the mask is clear, no unit of the next wheel has passed |
| `WheelBits.HigherWheelsStill` | article/src/c/wheel/timeout.c:436-444 | then no wheel above has moved either, so stopping skips nothing |
| `WheelBits.NextElapsed` | article/src/c/wheel/timeout.c:436-444 | the larger of the elapsed time and one slot of the next wheel makes that wheel's mask cover every unit it has moved |
| `WheelBits.NextFireIsMultiple` | article/src/c/wheel/timeout.c:357-371 | the next firing is a positive number of intervals after the old deadline |
| `WheelBits.NextFireUnique` | article/src/c/wheel/timeout.c:357-371 | it is the only such clock in (curtime, curtime + interval] |
| `WheelBits.ReaddExact` | article/src/c/wheel/timeout.c:357-371 | the re-added deadline is that one if and only if it fits in 64 bits |
| `WheelBits.ReaddLate` | article/src/c/wheel/timeout.c:357-371 | after missed firings the modulo arithmetic computes it up to 64-bit wrap-around |
| `WheelBits.ReaddWraps` | article/src/c/wheel/timeout.c:357-371 | an input on which the wrap-around puts the next firing before the clock |
| `WheelBits.AheadIs` | article/src/c/wheel/timeout.c:502-529 | rotating and counting trailing zeros finds the next pending slot of a wheel |
| `WheelBits.AheadAtMost` | article/src/c/wheel/timeout.c:502-529 | no pending slot comes earlier |
| `WheelBits.SoftBelow` | article/src/c/wheel/timeout.c:502-529 | the soft bound of a wheel never exceeds the time left to any timer on it |
| `WheelBits.WakeAtIs` | article/src/c/wheel/timeout.c:502-529 | the clock a timer makes the caller wake up for: its deadline on wheel 0, above that the start of its deadline's unit if and only if that unit is within a turn, which it is on all wheels but the last; never after the deadline |
| `WheelBits.WakeFar` | article/src/c/wheel/timeout.c:502-529 | on the last wheel a deadline in unit 100 wakes the caller at the start of unit 36 |
| `WheelBits.SoftIsWake` | article/src/c/wheel/timeout.c:502-529 | the soft bound of a wheel is not after the wake-up of any timer on it, and is that of the timers in the slot it finds |
| `WheelBits.SoftPositive` | article/src/c/wheel/timeout.c:502-529 | the soft bound is at least 1 |
| `WheelBits.CurrentSlotEmpty` | article/src/c/wheel/timeout.c:502-529 | no timer of wheel 0 stands in the slot of the current clock |
| `TickWheel.Timeouts.Add` | article/src/c/wheel/timeout.c:375-385 | the deadline and interval set on the timer, and that it joins the members; on the expired list exactly if not after the clock, otherwise at the end of its slot on the wheel for the remaining time; every other list keeps all else |
| `TickWheel.Timeouts.Sched` | article/src/c/wheel/timeout.c:324-353 | the timer joins the members with the given deadline, at the end of the expired list exactly if that is not after the clock, otherwise of a slot of the wheel for the remaining time; it is gone from where it was, and no other list changes |
| `TickWheel.Timeouts.Del` | article/src/c/wheel/timeout.c:290-305 | the timer leaves whatever list it is on; that list keeps the others in order, and no other list changes |
| `TickWheel.Timeouts.UnlinkWheel` | article/src/c/wheel/timeout.c:290-305 | removal from a slot clears the slot's bit exactly if it becomes empty |
| `TickWheel.Timeouts.TakeDue` | article/src/c/wheel/timeout.c:388-444 | the loop over the wheels gathers every timer whose unit has passed and leaves the rest well placed |
| `TickWheel.Timeouts.PassWheel` | article/src/c/wheel/timeout.c:395-441 | every masked slot of one wheel is emptied onto the waiting list, so that none of its slots has a unit that has passed, and the result says whether slot 0 was among them |
| `TickWheel.Timeouts.LeftPlaced` | article/src/c/wheel/timeout.c:436-444 | once the loop has broken off, every timer it has not taken, on this wheel or a higher one, is rightly placed at the new clock |
| `TickWheel.Timeouts.Update` | article/src/c/wheel/timeout.c:388-461 | for a jump of any size: no timer is lost, no deadline changes, and a timer is on the expired list if and only if its deadline is not after the clock |
| `TickWheel.Timeouts.Step` | article/src/c/wheel/timeout.c:464-466 | the same for a relative jump |
| `TickWheel.Timeouts.ReAdd` | article/src/c/wheel/timeout.c:357-371 | a periodic timer is rescheduled at the computed deadline |
| `TickWheel.Timeouts.Get` | article/src/c/wheel/timeout.c:544-561 | hands out the head of the expired list; a periodic timer stays a member with its next deadline, every other leaves |
| `TickWheel.Timeouts.Drain` | article/src/c/wheel/timeout.c:544-561 | repeated calls end even if every timer is periodic, hand out each expired timer once and set every periodic one to its next firing |
| `TickWheel.Timeouts.SoftInterval` | article/src/c/wheel/timeout.c:502-529 | the soft interval is at least 1; if a timer is on a wheel, it is the least wait up to the wake-up of any of them, and exactly the wait of one; otherwise all ones |
| `TickWheel.Timeouts.WakeIs` | article/src/c/wheel/timeout.c:502-529 | the wake-up of a timer on a wheel is after the clock and not after its deadline; it is the deadline on wheel 0, and the start of the deadline's unit on the wheels between that and the last |
| `TickWheel.Timeouts.Timeout` | article/src/c/wheel/timeout.c:536-541 | 0 exactly if something has expired, never beyond the earliest deadline, and otherwise the least wait up to the wake-up of a timer on the wheels |
| `TickWheel.Timeouts.Min` | article/src/c/wheel/timeout.c:568-582 | the exhaustive scan finds the earliest timer on the wheels |
| `TickWheel.Timeouts.Check` | article/src/c/wheel/timeout.c:601-623 | the self-check answers true in every reachable state |
| `TickWheel.Timeouts.Sleep` | article/src/c/wheel/timeout.c:536-541 | sleeping exactly for the bound never passes a deadline |
| `TickWheel.Timeouts.RunUntil` | article/src/c/wheel/timeout.c:536-561 | a loop of sleeping, updating and draining returns, in the order handed out, exactly the firings up to its end, each once and at its time: one-shot timers at their deadline, after which they are gone, periodic ones at every whole number of intervals, and those stay |
| `TickWheel.Timeouts.Turn` | article/src/c/wheel/timeout.c:536-561 | one turn of that loop: what draining hands out is logged, and it is exactly the timers due at the new clock, periodic ones move on by one interval, nobody else changes |
| `TickWheel.Timeouts.DueOrPending` | article/src/c/wheel/timeout.c:388-461 | between calls every member is on the expired list or on a wheel, according to its deadline |
| `LawnView.CollectExact` | src/lawn2.c:174-209 | a collection keeps exactly the timers with a deadline after the clock |
| `LawnView.CollectConsistent` | src/lawn2.c:174-209 | it leaves sorted queues, a live list of exactly the non-empty buckets, and a bound not above any deadline left |
| `LawnView.CollectNext` | src/lawn2.c:174-209 | a collection that walks leaves a bound not above any deadline left and equal to one of them, UINT64_MAX if none is left |
| `LawnView.TooEarly` | src/lawn2.c:174-177 | below the bound the full walk would take out nothing, leave every queue and the live list as they are, and only raise the bound; so returning early loses nothing |
| `LawnView.CollectCompose` | src/lawn2.c:211-223 | collecting at a and then at b is collecting at b |
| `LawnView.NothingDue` | src/lawn2.c:211-223 | skipping clocks at which nothing is due leaves the same store |
| `LawnView.JumpIsTicks` | src/lawn2.h:60-64 | one jump leaves the same queues, live order and bound as ticking all the way, from every consistent state, a stale bound included |
| `LawnView.WalkStep` | src/lawn2.c:180-206 | one bucket of the walk, with the live list changing under it, is one step of the collection |
| `LawnView.WalkEnd` | src/lawn2.c:180-209 | the walk over the live list computes the collection |
| `Lawn2.Blade.Append` | src/lawn2.c:136-157 | linking a node at the tail keeps the doubly linked queue |
| `Lawn2.Blade.Unlink` | src/lawn2.c:159-169 | unlinking any node keeps the queue, with that node gone |
| `Lawn2.Blade.PopHead` | src/lawn2.c:184-188 | taking the head leaves the tail of the queue |
| `Lawn2.Lawn.LiveLink` | src/lawn2.c:29-35 | the live list gains the bucket at its head |
| `Lawn2.Lawn.LiveUnlink` | src/lawn2.c:37-43 | the live list loses the bucket, the order of the others unchanged |
| `Lawn2.Lawn.FindSlot` | src/lawn2.c:83-91 | probing ends and returns the TTL's own bucket, or a free slot where it belongs |
| `Lawn2.Lawn.Claim` | src/lawn2.c:136-145 | a new TTL gets the free slot; the table stays below load 0.7 |
| `Lawn2.Lawn.Grow` | src/lawn2.c:93-116 | rehashing doubles the table, keeps every TTL with its queue unchanged, rebuilds the live list and keeps the probe invariant |
| `Lawn2.Lawn.MoveBucket` | src/lawn2.c:103-112 | one bucket copied into the new table, queue and links intact |
| `Lawn2.Lawn.MakeRoom` | src/lawn2.c:136-145 | after the load test there is room for one more TTL |
| `Lawn2.Lawn.BucketFor` | src/lawn2.c:136-145 | the TTL's bucket, made if there is none |
| `Lawn2.Lawn.Push` | src/lawn2.c:146-157 | the timer is appended to a queue that stays sorted, and the bound is lowered if need be |
| `Lawn2.Lawn.Add` | src/lawn2.c:136-157 | a fresh node is appended to its TTL's queue with its deadline; every other queue and deadline stays, the bound is lowered if need be, and the table knows no TTL more than its own |
| `Lawn2.Lawn.Del` | src/lawn2.c:159-169 | the node leaves the store; its queue loses just it, the live list its bucket exactly if that became empty, every other queue stays; an absent node changes nothing |
| `Lawn2.Lawn.Remove` | src/lawn2.c:159-169 | its queue loses just it, and the live list its bucket if that became empty |
| `Lawn2.Lawn.DrainBucket` | src/lawn2.c:182-204 | the inner loop takes exactly the due prefix of a sorted queue |
| `Lawn2.Lawn.WalkLive` | src/lawn2.c:180-206 | the outer loop visits every bucket of the live list while drained ones leave it |
| `Lawn2.Lawn.CollectExpired` | src/lawn2.c:174-209 | fires exactly the nodes due, chained through next, counts them, and leaves the view the collection prescribes |
| `Lawn2.Lawn.Tick` | src/lawn2.c:211-214 | one tick: the view becomes the collection at now + 1, exactly the due nodes leave |
| `Lawn2.Lawn.Advance` | src/lawn2.c:216-223 | a jump: the view becomes the collection at the target, exactly the due nodes leave and are counted; a target not ahead is ignored |
| `Lawn2.Lawn.TickMany` | src/lawn2.c:211-214 | n ticks one by one end in the very view one advance ends in, with the same count |
| `Lawn2.Lawn.SetNow` | src/lawn2.c:237-239 | setting the clock forward keeps the store valid |
| `Lawn2.Lawn.constructor` | src/lawn2.c:121-128 | an empty store |
| `LawnStore.Store.TimerFor` | src/lawn2.c:53-68 | blocks of 4096 nodes up to block id >> 12 are added as needed; the node at place id & 4095 of that block has that id, no node ever moves, and asking changes nothing else |
| `LawnStore.Store.Start` | src/benchmarks/c/impl/lawn2.c:25-27 | starting by id is the bag's start |
| `LawnStore.Store.Stop` | src/benchmarks/c/impl/lawn2.c:29-34 | stopping by id is the bag's stop, with whether the id was live |
| `LawnStore.Store.Tick` | src/benchmarks/c/impl/lawn2.c:36-40 | a tick is the bag's tick, with the number fired |
| `LawnStore.Store.Jump` | src/lawn2.c:216-223 | a jump to any target is the bag's, with the number fired |
| `LawnStore.Store.Size` | src/benchmarks/c/impl/lawn2.c:41-41 | the number of live ids |
| `LawnStore.Store.Advance` | src/benchmarks/c/impl/lawn2.c:43-45 | setting the clock forward leaves all deadlines |
| `WheelStore.Store.Start` | src/benchmarks/c/impl/wahern.c:44-55 | starting by id is the bag's start |
| `WheelStore.Store.Stop` | src/benchmarks/c/impl/wahern.c:57-64 | stopping by id is the bag's stop |
| `WheelStore.Store.Tick` | src/benchmarks/c/impl/wahern.c:66-79 | update and drain are the bag's tick, with the number fired |
| `WheelStore.Store.FireOne` | src/benchmarks/c/impl/wahern.c:70-76 | each turn of the drain loop hands out a live timer that is due |
| `WheelStore.Store.DrainAll` | src/benchmarks/c/impl/wahern.c:70-77 | the drain loop ends with exactly the due timers gone |
| `WheelStore.Store.Advance` | src/benchmarks/c/impl/wahern.c:87-96 | a jump drains exactly what came due |
| `WheelStore.Store.Size` | src/benchmarks/c/impl/wahern.c:81-81 | the number of live ids |
| `KernelLock.InitInv` | article/src/c/wheel/kernel_impls/linux_kern_timer.c:919-943 | the initial state satisfies the invariant |
| `KernelLock.StepInv` | article/src/c/wheel/kernel_impls/linux_kern_timer.c:919-1374 | every step of every agent keeps the invariant |
| `KernelLock.RunInv` | article/src/c/wheel/kernel_impls/linux_kern_timer.c:919-1374 | every state of every run satisfies it |
| `KernelLock.RaceFree` | article/src/c/wheel/kernel_impls/linux_kern_timer.c:908-918 | at most one agent owns a timer, and no step of another agent writes it |
| `KernelLock.OneOwner` | article/src/c/wheel/kernel_impls/linux_kern_timer.c:919-943 | two owners of a timer are the same agent |
| `KernelLock.OnlyOwnerWrites` | article/src/c/wheel/kernel_impls/linux_kern_timer.c:908-918 | a step by an agent that does not own a timer leaves it as it is |
| `KernelLock.FlagsNameBase` | article/src/c/wheel/kernel_impls/linux_kern_timer.c:919-943 | the flags of a queued or running timer name the base that holds it, and nobody is migrating it |
| `KernelLock.HandlerOnce` | article/src/c/wheel/kernel_impls/linux_kern_timer.c:1012-1020 | the handler of a timer is at any time at work on one CPU at most |
| `KernelLock.BitmapExact` | article/src/c/wheel/kernel_impls/linux_kern_timer.c:818-832 | a bit of the pending map is set if and only if its bucket holds a timer |
| `KernelLock.MarkUnderLock` | article/src/c/wheel/kernel_impls/linux_kern_timer.c:818-832 | with the lock held timer_pending tells whether the timer is on a list, though the mark stays on while a timer is carried |
| `KernelLock.NoDeadlock` | article/src/c/wheel/kernel_impls/linux_kern_timer.c:919-943 | every agent under way can step or waits for a lock whose holder can step |
| `KernelLock.TryDelDecides` | article/src/c/wheel/kernel_impls/linux_kern_timer.c:1215-1231 | fails exactly while the base runs the timer; otherwise the timer is on no list, no CPU is at its handler and nobody carries it to a list, whoever is about to restart it; the result says whether it was queued |
| `KernelLock.OffStays` | article/src/c/wheel/kernel_impls/linux_kern_timer.c:1342-1374 | a timer that is off stays off under every step while whoever is in __mod_timer with it has MOD_TIMER_PENDING_ONLY |
| `KernelLock.DeletedIsOff` | article/src/c/wheel/kernel_impls/linux_kern_timer.c:1215-1231 | inside the call the timer is off from the decision on, if nobody restarts it from then on |
| `KernelLock.DeleteReturns` | article/src/c/wheel/kernel_impls/linux_kern_timer.c:1342-1374 | when the synchronous delete returns, and from then on, the timer is neither queued nor running nor on its way to a list, as long as nobody restarts it after the decision; earlier restarts and mod_timer_pending do no harm |
| `KernelLock.ModDecides` | article/src/c/wheel/kernel_impls/linux_kern_timer.c:962-1010 | __mod_timer carries the timer to be enqueued or leaves at once; without MOD_TIMER_PENDING_ONLY a timer that is not queued is left so exactly by the bucket comparison |
| `KernelLock.ModReturns` | article/src/c/wheel/kernel_impls/linux_kern_timer.c:949-1059 | when mod_timer returns, it has at some step of the call left the timer on a list, or let it go by the bucket comparison, or, with MOD_TIMER_PENDING_ONLY, found it on no list |
| `KernelLock.CallAnswers` | article/src/c/wheel/kernel_impls/linux_kern_timer.c:949-1231 | the result of every call of mod_timer, del_timer and del_timer_sync was settled at one step of it, which did what that result says, and kept from there on |
| `KernelLock.ModResult` | article/src/c/wheel/kernel_impls/linux_kern_timer.c:949-1100 | 1 if and only if the timer was on a list when the call decided under the lock, or was let go by the bucket comparison after being seen pending at the first look; a 0 of mod_timer_pending means it was on no list |
| `KernelLock.SawPending` | article/src/c/wheel/kernel_impls/linux_kern_timer.c:962-962 | what __mod_timer remembers of timer_pending is what it was at its first look |
| `KernelLock.DelResult` | article/src/c/wheel/kernel_impls/linux_kern_timer.c:1190-1206 | 1 if and only if the call has taken the timer off a list; 0 only if it was not pending at the first look, or on no list under the lock |
| `KernelLock.DelReturns` | article/src/c/wheel/kernel_impls/linux_kern_timer.c:1190-1206 | when del_timer returns 1, and from then on, the timer is on no list and nobody carries it to one, unless it is restarted after the step that took it off |
| `KernelLock.GoneStays` | article/src/c/wheel/kernel_impls/linux_kern_timer.c:809-832 | a timer on no list that nobody carries stays so under every step while whoever is in __mod_timer with it has MOD_TIMER_PENDING_ONLY |
| `KernelLock.ListMoves` | article/src/c/wheel/kernel_impls/linux_kern_timer.c:537-555 | a timer changes lists only by an enqueue of the context that carries it, by the collection of its bucket, or by being taken off |
| `KernelLock.CollectMoves` | article/src/c/wheel/kernel_impls/linux_kern_timer.c:1457-1480 | every timer of a collected bucket goes to the expired list |
| `KernelLock.NoneLost` | article/src/c/wheel/kernel_impls/linux_kern_timer.c:809-1231 | a timer that was on a list and no longer is was taken off in between, by a call whose result is 1 or by the expiry, as the timer it is running |
| `KernelLock.HandlerCalled` | article/src/c/wheel/kernel_impls/linux_kern_timer.c:1421-1454 | a timer taken off to be run stays the base's running timer until its handler is called |
| `KernelLock.TargetReached` | article/src/c/wheel/kernel_impls/linux_kern_timer.c:1016-1041 | a timer carried to another base is headed for the base chosen until it is enqueued, or for the old one if that was running it |
| `KernelLock.LostInBucket` | article/src/c/wheel/kernel_impls/linux_kern_timer.c:976-1004 | for every bucket a run in which that happens: mod_timer returns 1, the timer is on no list and nothing is under way |
| `KernelLock.LostRestart` | article/src/c/wheel/kernel_impls/linux_kern_timer.c:491-531 | calc_wheel_index gives such buckets: for every timer of levels 0 to 7, once it was collected, an expiry that gets the timer's old index |
| `KernelLock.LostExample` | article/src/c/wheel/kernel_impls/linux_kern_timer.c:491-531 | one in numbers: tick 10 enqueued at 0, collected at 11, restarted at 12 for tick 74 |
| `KernelWheel.CeilIs` | article/src/c/wheel/kernel_impls/linux_kern_timer.c:1517-1562 | the carried clock of a level is the repeated ceiling of the clock: the multiples of a granule from c on |
| `KernelWheel.NextVisitIs` | article/src/c/wheel/kernel_impls/linux_kern_timer.c:1457-1480 | the least clock from c on at which the expiry looks at a bucket |
| `KernelWheel.CalcIndexIs` | article/src/c/wheel/kernel_impls/linux_kern_timer.c:491-495 | the index, with its 32-bit parameter, is the slot of the next granule after the expiry |
| `KernelWheel.Lateness` | article/src/c/wheel/kernel_impls/linux_kern_timer.c:497-517 | a timer on levels 0 to 7 is first looked at at (floor(e/G)+1)*G: never early, late by at most G and, above level 0, by at most 8/63 of its delta; an expired one at once |
| `KernelWheel.SameIndexAgain` | article/src/c/wheel/kernel_impls/linux_kern_timer.c:491-531 | just past its due clock, the expiry 63 granules on gets the bucket index a collected timer had |
| `KernelWheel.LastLevel` | article/src/c/wheel/kernel_impls/linux_kern_timer.c:518-529 | a timer the last level could hold is on time if and only if its absolute expiry is below the cutoff or falls into the cutoff's bucket |
| `KernelWheel.LastLevelEarly` | article/src/c/wheel/kernel_impls/linux_kern_timer.c:518-529 | an expiry that is looked at 132120576 ticks early |
| `KernelWheel.GatherHas` | article/src/c/wheel/kernel_impls/linux_kern_timer.c:1457-1480 | a non-empty bucket looked at is taken out |
| `KernelWheel.HeadsAre` | article/src/c/wheel/kernel_impls/linux_kern_timer.c:1457-1480 | the lists taken out are exactly the non-empty buckets looked at |
| `KernelWheel.FiresOnTime` | article/src/c/wheel/kernel_impls/linux_kern_timer.c:1422-1480 | over every run of adds, removals, same-bucket changes and ticks, each timer taken out is taken out at its first look, within a granule after it expires |
| `KernelWheel.SharedBucket` | article/src/c/wheel/kernel_impls/linux_kern_timer.c:491-517 | timers that share a bucket are due at the same clock |
| `KernelWheel.RunSettled` | article/src/c/wheel/kernel_impls/linux_kern_timer.c:533-555 | in every run no pending timer's bucket has been passed over |
| `KernelWheel.AddedLinks` | article/src/c/wheel/kernel_impls/linux_kern_timer.c:533-555 | an add puts the timer in front of the bucket its index names and leaves every other timer, each as often as before |
| `KernelWheel.RemovedUnlinks` | article/src/c/wheel/kernel_impls/linux_kern_timer.c:806-832 | a removal takes exactly the timer at its place; the others of the bucket keep their order, the other buckets all they hold |
| `KernelWheel.CollectedSplits` | article/src/c/wheel/kernel_impls/linux_kern_timer.c:1457-1480 | the buckets not looked at stay as they are, and each timer of the others is on one list taken out |
| `KernelWheel.RunConserves` | article/src/c/wheel/kernel_impls/linux_kern_timer.c:1422-1480 | over any run no timer is lost or made up: what was there and what joined is what is pending, what was removed and what was handed to the callbacks |
| `KernelWheel.ExactlyOnce` | article/src/c/wheel/kernel_impls/linux_kern_timer.c:1422-1480 | over any run each timer is pending, as often as it was added and not removed, up to its first look, and has been handed to the callbacks just so often after it |
| `KernelWheel.NeverLost` | article/src/c/wheel/kernel_impls/linux_kern_timer.c:1422-1480 | a timer added at some step and never removed or given a new expiry is in its bucket up to its first look, on a list taken out then, and handed to the callbacks after it |
| `KernelWheel.NextOfLevel` | article/src/c/wheel/kernel_impls/linux_kern_timer.c:1517-1562 | one level of the scan lowers the result to that level's first pending bucket |
| `KernelWheel.NextOfIsNext` | article/src/c/wheel/kernel_impls/linux_kern_timer.c:1507-1564 | the scan over all levels yields the first clock at which the expiry finds anything, capped by the maximal delta |
| `KernelWheel.NothingFound` | article/src/c/wheel/kernel_impls/linux_kern_timer.c:1457-1480 | where the expiry finds nothing it changes nothing |
| `KernelWheel.NohzIsPasses` | article/src/c/wheel/kernel_impls/linux_kern_timer.c:1678-1706 | one pass with NOHZ is a sequence of single-tick passes, all but the last idle |
| `KernelWheel.NohzIsTickByTick` | article/src/c/wheel/kernel_impls/linux_kern_timer.c:1734-1779 | a whole run with NOHZ, for any readings of jiffies and any callbacks, takes out the same lists at the same clocks as going tick by tick |
| `KernelWheel.PassesAreRun` | article/src/c/wheel/kernel_impls/linux_kern_timer.c:1734-1779 | passes with callbacks that add, remove and change timers are a run, and hand out what the run does |
| `KernelWheel.NohzExactlyOnce` | article/src/c/wheel/kernel_impls/linux_kern_timer.c:1678-1779 | the loop with NOHZ, after any run and with any such callbacks, hands out each timer whose first look it passes, and no other, as often as it was added and not removed |
| `KernelBase.TimerBase.InternalAddTimer` | article/src/c/wheel/kernel_impls/linux_kern_timer.c:533-555 | the timer heads the bucket its delta selects, in front of all that was there, the other buckets stay as they are, no other timer is lost, and the bitmap stays exact |
| `KernelBase.TimerBase.DetachTimer` | article/src/c/wheel/kernel_impls/linux_kern_timer.c:806-832 | exactly the timer at that place leaves; the others of its bucket keep their order, the other buckets all they hold, and the bit is cleared exactly if the bucket becomes empty |
| `KernelBase.TimerBase.NextPendingBucket` | article/src/c/wheel/kernel_impls/linux_kern_timer.c:1488-1501 | the distance, around the level, to the next pending bucket, or -1 |
| `KernelBase.TimerBase.NextTimerInterrupt` | article/src/c/wheel/kernel_impls/linux_kern_timer.c:1507-1564 | the first clock, at most the maximal delta away, at which the expiry finds a timer |
| `KernelBase.TimerBase.CollectBuckets` | article/src/c/wheel/kernel_impls/linux_kern_timer.c:1457-1480 | empties exactly the buckets looked at and returns their lists by level |
| `KernelBase.TimerBase.CollectExpired` | article/src/c/wheel/kernel_impls/linux_kern_timer.c:1678-1706 | one pass up to the callbacks, for any callbacks |
| `WheelExact.PlacePlaced` | src/benchmarks/c/impl/wheel_exact.c:87-98 | place satisfies the placement invariant for every expiry within 64 top-level units of the clock |
| `WheelExact.ShortInReach` | src/benchmarks/c/impl/wheel_exact.c:87-98 | a ttl below 2^48 is within reach |
| `WheelExact.ReachExactly` | src/benchmarks/c/impl/wheel_exact.c:87-130 | an expiry is within reach if and only if place puts it right, and if and only if no drain ever gets stuck on it |
| `WheelExact.StuckBeyond` | src/benchmarks/c/impl/wheel_exact.c:87-130 | beyond reach, the first drain of the timer's slot puts it back there |
| `WheelExact.NotStuckWithin` | src/benchmarks/c/impl/wheel_exact.c:87-130 | within reach no drain does |
| `WheelExact.ReachExamples` | src/benchmarks/c/impl/wheel_exact.c:87-130 | 2^48 is within reach at clock 0; 2^48 + 1 is not at clock 2^42 - 1 |
| `WheelExact.DeltaUnits` | src/benchmarks/c/impl/wheel_exact.c:87-98 | a delta of a level lies 1 to 64 of its units ahead, below 64 on a boundary |
| `WheelExact.CascadeLowers` | src/benchmarks/c/impl/wheel_exact.c:116-130 | a cascaded timer lands strictly lower, where it belongs |
| `WheelExact.DrainedIs` | src/benchmarks/c/impl/wheel_exact.c:121-130 | the slot drained at a boundary holds exactly the timers whose unit has come |
| `WheelExact.DrainLowers` | src/benchmarks/c/impl/wheel_exact.c:124-129 | a drained timer loses levels and does not return to the slot |
| `WheelExact.DrainReturns` | src/benchmarks/c/impl/wheel_exact.c:87-130 | a timer drained at the top level goes back into the same slot if and only if 2^48 ticks or more remain |
| `WheelExact.DueIs` | src/benchmarks/c/impl/wheel_exact.c:131-137 | slot 0 of the clock holds a timer exactly if it is due, or was started with ttl 0 64 ticks ago |
| `WheelExact.NoMoreBoundaries` | src/benchmarks/c/impl/wheel_exact.c:121-123 | at the first level not crossed nothing is left to cascade |
| `WheelExact.TickFires` | src/benchmarks/c/impl/wheel_exact.c:131-137 | after the cascades slot 0 of the clock holds exactly the timers that are due, or were started with ttl 0 64 ticks ago |
| `WheelExact.ExactWheel.Place` | src/benchmarks/c/impl/wheel_exact.c:87-98 | the loop chooses the level and slot of the delta |
| `WheelExact.ExactWheel.Start` | src/benchmarks/c/impl/wheel_exact.c:100-105 | the bag's start, for every ttl within reach |
| `WheelExact.ExactWheel.Stop` | src/benchmarks/c/impl/wheel_exact.c:107-114 | the bag's stop, with whether the id was live |
| `WheelExact.ExactWheel.Drain` | src/benchmarks/c/impl/wheel_exact.c:124-129 | the drain loop ends, keeps all deadlines, leaves the level cascaded, and moves as many timers as the slot held |
| `WheelExact.ExactWheel.Cascade` | src/benchmarks/c/impl/wheel_exact.c:117-130 | ascending over the crossed levels leaves every timer where it belongs |
| `WheelExact.ExactWheel.Tick` | src/benchmarks/c/impl/wheel_exact.c:116-138 | fires exactly what is due, or was started with ttl 0 64 ticks ago, although no deadline is read |
| `WheelExact.ExactWheel.Advance` | src/benchmarks/c/impl/wheel_exact.c:152-154 | advancing is ticking up to the target |
| `WheelExact.ExactWheel.Size` | src/benchmarks/c/impl/wheel_exact.c:140-140 | the number of live ids |
| `WheelExact.ExactWheel.FewMoves` | src/benchmarks/c/impl/wheel_exact.c:116-130 | cascade moves are at most 7 times the starts |
| `Slots.PushKeeps` | src/benchmarks/c/impl/naive.c:51-67 | pushing an id keeps the metadata the inverse of the lists |
| `Slots.RemoveKeeps` | src/benchmarks/c/impl/naive.c:93-101 | swap-removal keeps it, for the id moved too |
| `Slots.ClearKeeps` | src/benchmarks/c/impl/naive.c:111-120 | firing a slot removes exactly the ids whose metadata names it |
| `Slots.SlotSize` | src/benchmarks/c/impl/wheel_exact.c:131-137 | a slot fires as many ids as its list is long |
| `Slots.SlotPush` | src/benchmarks/c/impl/wheel_exact.c:65-72 | the new lists and metadata |
| `Slots.SlotRemoveAt` | src/benchmarks/c/impl/wheel_exact.c:74-82 | the new lists and metadata |
| `Slots.SlotFire` | src/benchmarks/c/impl/wheel_exact.c:131-137 | the new lists, metadata and count |
| `NaiveRing.SlotIsLow` | src/benchmarks/c/impl/naive.c:60-67 | masking with the size less one takes the low bits |
| `NaiveRing.LowUnique` | src/benchmarks/c/impl/naive.c:60-67 | within one turn of the ring the slot tells the time |
| `NaiveRing.TurnsAt` | src/benchmarks/c/impl/naive.c:111-120 | a timer is in the slot of the next clock exactly if it is due then, or was started with ttl 0 a turn before |
| `NaiveRing.SlotIsDue` | src/benchmarks/c/impl/naive.c:111-120 | that slot holds exactly those timers |
| `NaiveRing.Ring.Place` | src/benchmarks/c/impl/naive.c:60-67 | the id enters the slot of its deadline |
| `NaiveRing.Ring.GrowRing` | src/benchmarks/c/impl/naive.c:69-84 | rehashing keeps all deadlines and covers the ttl, with at most twice that many slots if it grows |
| `NaiveRing.Ring.NewSize` | src/benchmarks/c/impl/naive.c:69-72 | the new size is a power of two above the ttl, and the old one or at most twice the ttl |
| `NaiveRing.Ring.Start` | src/benchmarks/c/impl/naive.c:86-91 | the bag's start, for every ttl |
| `NaiveRing.Ring.Stop` | src/benchmarks/c/impl/naive.c:103-109 | the bag's stop, with whether the id was live |
| `NaiveRing.Ring.Tick` | src/benchmarks/c/impl/naive.c:111-120 | fires exactly what is due, or was started with ttl 0 one turn of the present ring ago, although no deadline is read |
| `NaiveRing.Ring.Advance` | src/benchmarks/c/impl/naive.c:124-126 | a jump below every clock at which a timer is fired keeps the ring |
| `NaiveRing.Ring.Size` | src/benchmarks/c/impl/naive.c:122-122 | the number of live ids |
| `Heap.RootFirst` | src/benchmarks/c/impl/heap.c:88-92 | the root is due first |
| `Heap.SwapKeeps` | src/benchmarks/c/impl/heap.c:34-37 | exchanging two entries keeps pos the inverse and all deadlines |
| `Heap.UpStep` | src/benchmarks/c/impl/heap.c:39-48 | one step up leaves only the edge above wrong |
| `Heap.DownStep` | src/benchmarks/c/impl/heap.c:50-61 | one step down leaves only the edges below wrong |
| `Heap.DownEnds` | src/benchmarks/c/impl/heap.c:50-61 | when sifting down ends, only the edge above the start can be wrong |
| `Heap.ReplacedOrder` | src/benchmarks/c/impl/heap.c:74-86 | putting the last entry in a hole can break order above and below, but not across |
| `Heap.ReplacedKeeps` | src/benchmarks/c/impl/heap.c:74-86 | it removes just the one id |
| `Heap.HeapStore.SiftUp` | src/benchmarks/c/impl/heap.c:39-48 | restores heap order, deadlines and inverse kept |
| `Heap.HeapStore.SiftDown` | src/benchmarks/c/impl/heap.c:50-61 | restores it but for the edge above |
| `Heap.HeapStore.Start` | src/benchmarks/c/impl/heap.c:63-72 | the bag's start |
| `Heap.HeapStore.Stop` | src/benchmarks/c/impl/heap.c:74-86 | the bag's stop; sifting down and then up restores order |
| `Heap.HeapStore.Pop` | src/benchmarks/c/impl/heap.c:90-101 | the root leaves the heap |
| `Heap.HeapStore.Tick` | src/benchmarks/c/impl/heap.c:88-103 | ends, removes exactly what is due, and counts it |
| `Heap.HeapStore.Size` | src/benchmarks/c/impl/heap.c:105-105 | the number of live ids |
| `Heap.HeapStore.Advance` | src/benchmarks/c/impl/heap.c:107-109 | a jump keeps the heap |
| `Heap.PosSize` | src/benchmarks/c/impl/heap.c:105-105 | the array is as long as there are ids |
| `ClampedLawn.ClampBounds` | src/benchmarks/c/impl/lawn2_clamped.c:14-37 | never below ttl, above by at most an eighth of it, exact below 64 |
| `ClampedLawn.ClampMonotone` | src/benchmarks/c/impl/lawn2_clamped.c:14-37 | monotone, across levels too |
| `ClampedLawn.ClampIdempotent` | src/benchmarks/c/impl/lawn2_clamped.c:14-37 | a clamped ttl is a fixed point |
| `ClampedLawn.RoundUpIs` | src/benchmarks/c/impl/lawn2_clamped.c:14-37 | rounding gives the least multiple of the granule not below ttl |
| `ClampedLawn.ClampTimerTtl` | src/benchmarks/c/impl/lawn2_clamped.c:14-37 | the loop and bit masks compute the rounding; beyond 2^64 - 2^24, and only there, the sum wraps and the result is 0 |
| `ClampedLawn.FewClamped` | src/benchmarks/c/impl/lawn2_clamped.c:14-37 | clamped values up to 2^27 number at most 457 |
| `ClampedLawn.TableStaysSmall` | src/benchmarks/c/impl/lawn2_clamped.c:57-59 | then the table has at most 1024 slots |
| `ClampedLawn.DoClamped` | src/benchmarks/c/impl/lawn2_clamped.c:57-78 | each call, with any 64-bit ttl whose clamp the lawn can take, is the bag's with the clamped ttl, and only a start adds a TTL |
| `ClampedLawn.DoSmall` | src/benchmarks/c/impl/lawn2_clamped.c:57-78 | with a ttl below 2^27 it keeps the TTLs among the few clamped values |
| `ClampedLawn.RunClamped` | src/benchmarks/c/impl/lawn2_clamped.c:57-78 | any run, with any ttls, shows the bag's trace with the clamped ttls and ends in its state |
| `ClampedLawn.RunSmall` | src/benchmarks/c/impl/lawn2_clamped.c:57-78 | with ttls below 2^27, however long the run, besides at most 457 TTLs and at most 1024 slots |

## Left out

- `src/lawn.c` and `src/utils/hashmap.c`: the reference Lawn does not keep its documented update behaviour, and its chained map is routine.
- `article/src/c/wheel/kernel_impls/bsd_kern_timeout.c`: it rests on kernel locks, sleep queues and event timers that are not part of this model.
- Kernel timer: `forward_timer_base`, idle and hrtimer code, `round_jiffies`, hotplug, sysctl, debug objects, tracing and the PREEMPT_RT paths.
- Kernel timer: the unlocked early return of `__mod_timer` for an unchanged expiry, and `add_timer_on`, which its own documentation forbids beside `del_timer_sync`.
- Kernel timer: the protocol leaves open which buckets an expiry collects and which bucket an enqueue picks (any), so it holds for the wheel arithmetic proved separately; expiries are not part of its state.
- Kernel timer: jiffies and expiries do not wrap; a negative delta is an expiry before the clock.
- `timeouts_next`, flag and version accessors, and float conversion in the tickless wheel; other wheel sizes than the defaults.
- Memory layout, `realloc`, `free` and allocation failure: arrays and the lawn's table of blocks grow, a node is an object, and the other stores' id-indexed arrays are maps.
- Lawn2.Lawn.Add: requires room for a table of less than 2^63 slots, because memory is not modelled; by id this is a bound on the number of distinct TTLs.
- Differential.LawnRun: requires fewer than 2^60 commands, for the same reason.
- ClampedLawn.RunClamped: requires fewer than 2^60 commands, for the same reason; `RunSmall` does not.
- Differential.Agree: schedules use one-shot timers with relative ttls, as the adapters do; periodic and absolute timers are covered by the wheel's own methods. Jumps of the lawn are in its own run and not among the five stores', which have none.
- Lawn2.Lawn.CollectExpired: the chain handed out holds each fired node once, in an order the caller may not rely on.
- TickWheel.Timeouts.Update: the order of the expired list is kept for what was on it and not promised for what joins.
- KernelLock.NoDeadlock: says that somebody can step, not that a fair scheduler lets everybody finish.
- Heap: ties between equal deadlines may leave in any order.
- The benchmark programs, statistics, random numbers, figures, the concurrent driver, wall clocks and `lawn.py`: input, output and measurement only.
- TickWheel.Timeouts.Check: says that the self-check does not fail, and not what it finds in a corrupted structure.
- KernelWheel.ExactlyOnce: a timer that gets a new expiry in its bucket counts as a new one from then on.
- KernelLock.ModResult: leaving because a queued timer already expires early enough has the same effect on the state as the bucket comparison; which expiry is kept is not modelled.
